/**
  The request/response logic of the image service client: how prompts are
  decorated, which parts each operation sends, how a multi-part reply is
  decoded, and how every failure is reported. The remote model itself is a
  parameter: a function from the request to its reply.
 */
module GeminiService {
  import opened Common
  import DataUrl

  // ---------------------------------------------------------------------------
  // Prompt templates
  // ---------------------------------------------------------------------------

  /** The text between a fixed `lead` and a fixed `tail`, when `s` has that shape. */
  function Unfill(lead: string, tail: string, s: string): Option<string>
  {
    if |lead| + |tail| <= |s| && s[..|lead|] == lead && s[|s| - |tail|..] == tail
    then Some(s[|lead|..|s| - |tail|])
    else None
  }

  /** Reading the filled-in text back out of a template gives exactly that text. */
  lemma UnfillFill(lead: string, tail: string, p: string)
    ensures Unfill(lead, tail, lead + p + tail) == Some(p)
  {
    var s := lead + p + tail;
    assert s[..|lead|] == lead;
    assert s[|s| - |tail|..] == tail;
    assert s[|lead|..|s| - |tail|] == p;
  }

  /** Conversely, whatever is read back refills to the same text. */
  lemma FillUnfill(lead: string, tail: string, s: string)
    requires Unfill(lead, tail, s).Some?
    ensures lead + Unfill(lead, tail, s).value + tail == s
  {
    var p := Unfill(lead, tail, s).value;
    assert s == s[..|lead|] + s[|lead|..|s| - |tail|] + s[|s| - |tail|..];
  }

  // ---------------------------------------------------------------------------
  // generateImage: prompt decoration
  // ---------------------------------------------------------------------------

  datatype Style = Realistic | Anime | Fantasy
  datatype Quality = Standard | Hd
  /** '1:1' | '9:16' | '16:9' */
  datatype AspectRatio = Square | Portrait | Landscape
  datatype GenerateImageOptions = GenerateImageOptions(style: Style, quality: Quality, aspectRatio: AspectRatio)

  function StylePrefix(style: Style): string
  {
    match style
    case Realistic => "ultra-realistic photo, cinematic lighting, "
    case Anime => "anime style, vibrant colors, detailed, "
    case Fantasy => "fantasy art, epic, magical, intricate details, "
  }

  const HdSuffix := ", 4k, high resolution, sharp focus"

  function QualitySuffix(quality: Quality): string
  {
    if quality == Hd then HdSuffix else ""
  }

  /**
    The prompt sent to the image generator: the style's fixed prefix, the
    user's prompt, and the HD phrase for 'hd' quality.
   */
  function FullPrompt(prompt: string, options: GenerateImageOptions): (r: string)
    ensures StylePrefix(options.style) <= r
    ensures Unfill(StylePrefix(options.style), QualitySuffix(options.quality), r) == Some(prompt)
  {
    UnfillFill(StylePrefix(options.style), QualitySuffix(options.quality), prompt);
    StylePrefix(options.style) + prompt + QualitySuffix(options.quality)
  }

  /** 'hd' appends exactly the HD phrase to what 'standard' would send. */
  lemma HdAppendsSuffix(prompt: string, style: Style, aspectRatio: AspectRatio)
    ensures FullPrompt(prompt, GenerateImageOptions(style, Hd, aspectRatio))
         == FullPrompt(prompt, GenerateImageOptions(style, Standard, aspectRatio)) + HdSuffix
    ensures FullPrompt(prompt, GenerateImageOptions(style, Standard, aspectRatio)) == StylePrefix(style) + prompt
  {
  }

  /** Two different style prefixes disagree at some position both of them cover. */
  lemma StylePrefixesDiffer(s1: Style, s2: Style) returns (k: nat)
    requires s1 != s2
    ensures k < |StylePrefix(s1)| && k < |StylePrefix(s2)| && StylePrefix(s1)[k] != StylePrefix(s2)[k]
  {
    var a, r, f := StylePrefix(Anime), StylePrefix(Realistic), StylePrefix(Fantasy);
    if {s1, s2} == {Anime, Realistic} {
      k := 38;
      assert a[k] == ' ' && r[k] == 'i';
    } else if {s1, s2} == {Anime, Fantasy} {
      k := 38;
      assert a[k] == ' ' && f[k] == 'd';
    } else {
      k := 42;
      assert f[k] == 'i' && r[k] == ' ';
    }
  }

  /** The decorated prompt reveals the style it was decorated with. */
  lemma FullPromptDeterminesStyle(p1: string, o1: GenerateImageOptions, p2: string, o2: GenerateImageOptions)
    requires FullPrompt(p1, o1) == FullPrompt(p2, o2)
    ensures o1.style == o2.style
  {
    var r := FullPrompt(p1, o1);
    if o1.style != o2.style {
      var k := StylePrefixesDiffer(o1.style, o2.style);
    }
  }

  // ---------------------------------------------------------------------------
  // editImage: strength bands and the final instruction
  // ---------------------------------------------------------------------------

  datatype Band = Subtle | Moderate | Significant

  /** The three strength bands; each boundary value belongs to the band above it. */
  function BandOf(strength: real): (b: Band)
    ensures b == Subtle <==> strength < 0.3
    ensures b == Moderate <==> 0.3 <= strength < 0.7
    ensures b == Significant <==> 0.7 <= strength
  {
    if strength < 0.3 then Subtle
    else if strength >= 0.3 && strength < 0.7 then Moderate
    else Significant
  }

  function Rank(b: Band): nat
  {
    match b
    case Subtle => 0
    case Moderate => 1
    case Significant => 2
  }

  /** A stronger setting never asks for a milder change. */
  lemma BandMonotonic(s1: real, s2: real)
    requires s1 <= s2
    ensures Rank(BandOf(s1)) <= Rank(BandOf(s2))
  {
  }

  function BandPhrase(b: Band): string
  {
    match b
    case Subtle => "Make a very subtle and minor adjustment to the image"
    case Moderate => "Make a moderate adjustment to the image"
    case Significant => "Make a significant and noticeable change to the image"
  }

  const ProClause := ", applying a highly creative and dramatic interpretation"
  const InstructionLead := ", based on the following instruction: "

  /** `instructionPrefix` once the band and the pro-mode clause are in. */
  function InstructionPrefix(strength: real, isProMode: bool): string
  {
    BandPhrase(BandOf(strength)) + (if isProMode then ProClause else "")
  }

  /** `finalPrompt` of editImage. */
  function EditInstruction(prompt: string, strength: real, isProMode: bool): (r: string)
    ensures BandPhrase(BandOf(strength)) <= r
    ensures Unfill(InstructionPrefix(strength, isProMode) + InstructionLead, "", r) == Some(prompt)
  {
    var lead := InstructionPrefix(strength, isProMode) + InstructionLead;
    UnfillFill(lead, "", prompt);
    assert lead + prompt + "" == lead + prompt;
    lead + prompt
  }

  /** Two different band phrases disagree at some position both of them cover. */
  lemma BandPhrasesDiffer(b1: Band, b2: Band) returns (k: nat)
    requires b1 != b2
    ensures k < |BandPhrase(b1)| && k < |BandPhrase(b2)| && BandPhrase(b1)[k] != BandPhrase(b2)[k]
  {
    var sub, mod, sig := BandPhrase(Subtle), BandPhrase(Moderate), BandPhrase(Significant);
    if {b1, b2} == {Moderate, Subtle} {
      k := 38;
      assert mod[k] == 'e' && sub[k] == 't';
    } else if {b1, b2} == {Moderate, Significant} {
      k := 38;
      assert mod[k] == 'e' && sig[k] == 'g';
    } else {
      k := 51;
      assert sig[k] == 'g' && sub[k] == 'e';
    }
  }

  /** What follows the band phrase in the edit instruction. */
  function AfterBand(prompt: string, isProMode: bool): string
  {
    (if isProMode then ProClause else "") + InstructionLead + prompt
  }

  lemma Regroup(a: string, b: string, c: string, d: string)
    ensures (a + b) + c + d == a + (b + c + d)
  {
  }

  lemma EditInstructionSplits(prompt: string, strength: real, isProMode: bool)
    ensures EditInstruction(prompt, strength, isProMode) == BandPhrase(BandOf(strength)) + AfterBand(prompt, isProMode)
  {
    Regroup(BandPhrase(BandOf(strength)), if isProMode then ProClause else "", InstructionLead, prompt);
  }

  /** The text after the band phrase determines pro mode and the prompt. */
  lemma AfterBandDetermines(p1: string, m1: bool, p2: string, m2: bool)
    requires AfterBand(p1, m1) == AfterBand(p2, m2)
    ensures m1 == m2 && p1 == p2
  {
    var t := AfterBand(p1, m1);
    assert ProClause[37] == 'a' && InstructionLead[37] == ' ';
    assert t[37] == (if m1 then 'a' else ' ');
    assert t[37] == (if m2 then 'a' else ' ');
    var k := |(if m1 then ProClause else "") + InstructionLead|;
    assert t[k..] == p1;
    assert t[k..] == p2;
  }

  lemma SameAt(a: string, x: string, b: string, y: string, k: nat)
    requires a + x == b + y && k < |a| && k < |b|
    ensures a[k] == b[k]
  {
    assert (a + x)[k] == a[k] && (b + y)[k] == b[k];
  }

  lemma SameAfter(a: string, x: string, y: string)
    requires a + x == a + y
    ensures x == y
  {
    assert (a + x)[|a|..] == x && (a + y)[|a|..] == y;
  }

  /** Equal edit instructions come from the same strength band. */
  lemma SameBand(p1: string, s1: real, m1: bool, p2: string, s2: real, m2: bool)
    requires EditInstruction(p1, s1, m1) == EditInstruction(p2, s2, m2)
    ensures BandOf(s1) == BandOf(s2)
  {
    EditInstructionSplits(p1, s1, m1);
    EditInstructionSplits(p2, s2, m2);
    var b1, b2 := BandOf(s1), BandOf(s2);
    if b1 != b2 {
      var k := BandPhrasesDiffer(b1, b2);
      SameAt(BandPhrase(b1), AfterBand(p1, m1), BandPhrase(b2), AfterBand(p2, m2), k);
    }
  }

  /**
    The edit instruction determines the strength band, whether pro mode was on,
    and the user's prompt.
   */
  lemma EditInstructionDetermines(p1: string, s1: real, m1: bool, p2: string, s2: real, m2: bool)
    requires EditInstruction(p1, s1, m1) == EditInstruction(p2, s2, m2)
    ensures BandOf(s1) == BandOf(s2) && m1 == m2 && p1 == p2
  {
    SameBand(p1, s1, m1, p2, s2, m2);
    EditInstructionSplits(p1, s1, m1);
    EditInstructionSplits(p2, s2, m2);
    SameAfter(BandPhrase(BandOf(s1)), AfterBand(p1, m1), AfterBand(p2, m2));
    AfterBandDetermines(p1, m1, p2, m2);
  }

  // ---------------------------------------------------------------------------
  // Requests
  // ---------------------------------------------------------------------------

  /** One part of a multi-modal request: `{inlineData: {data, mimeType}}` or `{text}`. */
  datatype RequestPart = InlineData(data: string, mimeType: string) | Text(text: string)

  datatype Slot = ImageSlot | TextSlot

  function Layout(parts: seq<RequestPart>): seq<Slot>
  {
    seq(|parts|, i requires 0 <= i < |parts| => if parts[i].InlineData? then ImageSlot else TextSlot)
  }

  const PngMime := "image/png"
  const JpegMime := "image/jpeg"

  /** editImage sends the original image, then the instruction. */
  function EditParts(prompt: string, base64ImageData: string, mimeType: string, isProMode: bool, strength: real): (r: seq<RequestPart>)
    ensures Layout(r) == [ImageSlot, TextSlot]
    ensures r[0] == InlineData(base64ImageData, mimeType)
    ensures r[1].Text? && Unfill(InstructionPrefix(strength, isProMode) + InstructionLead, "", r[1].text) == Some(prompt)
  {
    [InlineData(base64ImageData, mimeType), Text(EditInstruction(prompt, strength, isProMode))]
  }

  const InpaintLead := "Using the provided white mask on the second image, replace only the masked area of the first (original) image with the following description: \""
  const InpaintTail := "\". The rest of the image (the black area in the mask) should remain completely unchanged."

  /** inpaintImage sends the instruction, the original image, then the mask, always labelled PNG. */
  function InpaintParts(prompt: string, base64ImageData: string, mimeType: string, base64MaskData: string): (r: seq<RequestPart>)
    ensures Layout(r) == [TextSlot, ImageSlot, ImageSlot]
    ensures r[0].Text? && Unfill(InpaintLead, InpaintTail, r[0].text) == Some(prompt)
    ensures r[1] == InlineData(base64ImageData, mimeType)
    ensures r[2] == InlineData(base64MaskData, PngMime)
  {
    UnfillFill(InpaintLead, InpaintTail, prompt);
    [Text(InpaintLead + prompt + InpaintTail), InlineData(base64ImageData, mimeType), InlineData(base64MaskData, PngMime)]
  }

  const RemoveBackgroundInstruction := "Remove the background from this image, leaving only the main subject. The new background should be transparent."

  /** removeBackground sends the original image, then a fixed instruction. */
  function RemoveBackgroundParts(base64ImageData: string, mimeType: string): (r: seq<RequestPart>)
    ensures Layout(r) == [ImageSlot, TextSlot]
    ensures r[0] == InlineData(base64ImageData, mimeType)
    ensures r[1] == Text(RemoveBackgroundInstruction)
  {
    [InlineData(base64ImageData, mimeType), Text(RemoveBackgroundInstruction)]
  }

  const SketchLead := "Transform this rough sketch into a photorealistic, high-quality image. The user wants to see: \""
  const SketchTail := "\". Interpret the shapes and composition in the sketch to create a realistic and detailed final image."

  /** sketchToImage sends the sketch, always labelled PNG, then the instruction. */
  function SketchParts(prompt: string, base64SketchData: string): (r: seq<RequestPart>)
    ensures Layout(r) == [ImageSlot, TextSlot]
    ensures r[0] == InlineData(base64SketchData, PngMime)
    ensures r[1].Text? && Unfill(SketchLead, SketchTail, r[1].text) == Some(prompt)
  {
    UnfillFill(SketchLead, SketchTail, prompt);
    [InlineData(base64SketchData, PngMime), Text(SketchLead + prompt + SketchTail)]
  }

  // ---------------------------------------------------------------------------
  // Replies and their decoding
  // ---------------------------------------------------------------------------

  /**
    One part of the first candidate's content. The decoder only tests these
    fields for truthiness, so an absent field is represented by "".
   */
  datatype ResponsePart = ResponsePart(text: string, data: string, mimeType: string)

  /** The reply of the multi-modal call: a rejection with its message, or the (possibly missing) parts list. */
  datatype ContentReply = Rejected(reason: string) | Replied(parts: Option<seq<ResponsePart>>)

  datatype EditedImageResult = EditedImageResult(imageUrl: Option<string>, text: Option<string>)

  /** `if (part.text)` */
  predicate IsTextPart(p: ResponsePart)
  {
    p.text != ""
  }

  /** `else if (part.inlineData?.data && part.inlineData?.mimeType)` */
  predicate IsImagePart(p: ResponsePart)
  {
    p.text == "" && p.data != "" && p.mimeType != ""
  }

  function ImageUrlOf(p: ResponsePart): string
  {
    DataUrl.Build(p.mimeType, p.data)
  }

  /** The text of the last text part. */
  function LastText(parts: seq<ResponsePart>): Option<string>
  {
    if |parts| == 0 then None
    else if IsTextPart(parts[|parts| - 1]) then Some(parts[|parts| - 1].text)
    else LastText(parts[..|parts| - 1])
  }

  /** The data URL of the last image part. */
  function LastImageUrl(parts: seq<ResponsePart>): Option<string>
  {
    if |parts| == 0 then None
    else if IsImagePart(parts[|parts| - 1]) then Some(ImageUrlOf(parts[|parts| - 1]))
    else LastImageUrl(parts[..|parts| - 1])
  }

  /** What the decoding loop leaves in `result`; a missing parts list decodes to nothing. */
  function Decoded(parts: Option<seq<ResponsePart>>): EditedImageResult
  {
    match parts
    case None => EditedImageResult(None, None)
    case Some(ps) => EditedImageResult(LastImageUrl(ps), LastText(ps))
  }

  /** The text part at `i` is the last text part: its text is the decoded text. */
  lemma {:induction false} LastTextIsLastTextPart(parts: seq<ResponsePart>, i: nat)
    requires i < |parts| && IsTextPart(parts[i])
    requires forall j :: i < j < |parts| ==> !IsTextPart(parts[j])
    ensures LastText(parts) == Some(parts[i].text)
    decreases |parts|
  {
    if i < |parts| - 1 {
      var init := parts[..|parts| - 1];
      assert init[i] == parts[i];
      forall j | i < j < |init| ensures !IsTextPart(init[j]) {
        assert init[j] == parts[j];
      }
      LastTextIsLastTextPart(init, i);
    }
  }

  /** No text is decoded exactly when no part has text. */
  lemma {:induction false} LastTextNone(parts: seq<ResponsePart>)
    ensures LastText(parts) == None <==> forall j :: 0 <= j < |parts| ==> !IsTextPart(parts[j])
    decreases |parts|
  {
    if |parts| > 0 {
      var init := parts[..|parts| - 1];
      LastTextNone(init);
      assert forall j :: 0 <= j < |init| ==> init[j] == parts[j];
    }
  }

  /** The image part at `i` is the last image part: its data URL is the decoded image. */
  lemma {:induction false} LastImageIsLastImagePart(parts: seq<ResponsePart>, i: nat)
    requires i < |parts| && IsImagePart(parts[i])
    requires forall j :: i < j < |parts| ==> !IsImagePart(parts[j])
    ensures LastImageUrl(parts) == Some(ImageUrlOf(parts[i]))
    decreases |parts|
  {
    if i < |parts| - 1 {
      var init := parts[..|parts| - 1];
      assert init[i] == parts[i];
      forall j | i < j < |init| ensures !IsImagePart(init[j]) {
        assert init[j] == parts[j];
      }
      LastImageIsLastImagePart(init, i);
    }
  }

  /**
    A decoded image always comes from a part without text that has both data
    and a MIME type: a part with text is never read as an image.
   */
  lemma {:induction false} DecodedImageSource(parts: seq<ResponsePart>)
    requires LastImageUrl(parts).Some?
    ensures exists i :: 0 <= i < |parts| && parts[i].text == "" && parts[i].data != "" && parts[i].mimeType != ""
                        && LastImageUrl(parts) == Some(DataUrl.Build(parts[i].mimeType, parts[i].data))
    decreases |parts|
  {
    var n := |parts| - 1;
    if IsImagePart(parts[n]) {
      assert LastImageUrl(parts) == Some(ImageUrlOf(parts[n]));
    } else {
      var init := parts[..n];
      DecodedImageSource(init);
      var i :| 0 <= i < |init| && init[i].text == "" && init[i].data != "" && init[i].mimeType != ""
               && LastImageUrl(init) == Some(DataUrl.Build(init[i].mimeType, init[i].data));
      assert parts[i] == init[i];
    }
  }

  /**
    The loop shared by editImage, inpaintImage, removeBackground and
    sketchToImage: walk the parts in order, letting each text part overwrite
    `text` and each image part overwrite `imageUrl`.
   */
  method DecodeParts(parts: Option<seq<ResponsePart>>) returns (result: EditedImageResult)
    ensures result == Decoded(parts)
  {
    result := EditedImageResult(None, None);
    if parts.Some? {
      var ps := parts.value;
      for i := 0 to |ps|
        invariant result == EditedImageResult(LastImageUrl(ps[..i]), LastText(ps[..i]))
      {
        assert ps[..i + 1][..i] == ps[..i];
        var part := ps[i];
        if part.text != "" {
          result := result.(text := Some(part.text));
        } else if part.data != "" && part.mimeType != "" {
          result := result.(imageUrl := Some(DataUrl.Build(part.mimeType, part.data)));
        }
      }
      assert ps[..|ps|] == ps;
    }
  }

  // ---------------------------------------------------------------------------
  // Failures
  // ---------------------------------------------------------------------------

  const NoImageGenerated := "No image generated."
  const GenerateFailure := "Failed to generate image. Please try again."
  const NoEditedImage := "No edited image was returned from the API."
  const EditFailure := "Failed to edit image. Please try again."
  const NoInpaintedImage := "Inpainting did not produce a new image."
  const InpaintFailure := "Failed to inpaint image. Please try again."
  const NoBackgroundRemoved := "Background removal did not produce a new image."
  const RemoveBackgroundFailure := "Failed to remove background. Please try again."
  const NoSketchImage := "Sketch-to-image did not produce a new image."
  const SketchFailure := "Failed to generate image from sketch. Please try again."

  /** `catch (error) { throw new Error(message) }`: any error becomes the operation's fixed message. */
  function Rethrow<T>(inner: Result<T>, message: string): (r: Result<T>)
    ensures r.Ok? <==> inner.Ok?
    ensures r.Ok? ==> r.value == inner.value
    ensures r.Err? ==> r.message == message
  {
    match inner
    case Ok(_) => inner
    case Err(_) => Err(message)
  }

  /**
    The outcome of a multi-modal operation: the rejection or the "no image"
    error raised inside the `try`, rethrown with the operation's fixed message.
   */
  function Settle(reply: ContentReply, noImage: string, failure: string): (r: Result<EditedImageResult>)
    ensures r.Ok? <==> reply.Replied? && Decoded(reply.parts).imageUrl.Some?
    ensures r.Ok? ==> r.value == Decoded(reply.parts) && r.value.imageUrl.Some?
    ensures r.Err? ==> r.message == failure
  {
    var inner :=
      match reply
      case Rejected(reason) => Err(reason)
      case Replied(parts) =>
        var result := Decoded(parts);
        if result.imageUrl.None? then Err(noImage) else Ok(result);
    Rethrow(inner, failure)
  }

  /** A reply made only of text parts fails every multi-modal operation. */
  lemma {:induction false} TextOnlyReplyFails(parts: seq<ResponsePart>, noImage: string, failure: string)
    requires forall j :: 0 <= j < |parts| ==> IsTextPart(parts[j])
    ensures Settle(Replied(Some(parts)), noImage, failure) == Err(failure)
    decreases |parts|
  {
    if |parts| > 0 {
      var init := parts[..|parts| - 1];
      TextOnlyReplyFails(init, noImage, failure);
      assert LastImageUrl(parts) == LastImageUrl(init);
    }
  }

  /** Send one request, decode the reply, and settle the outcome. */
  method SendAndDecode(request: seq<RequestPart>, service: seq<RequestPart> -> ContentReply, noImage: string, failure: string)
    returns (r: Result<EditedImageResult>)
    ensures r == Settle(service(request), noImage, failure)
  {
    var reply := service(request);
    var inner: Result<EditedImageResult>;
    if reply.Rejected? {
      inner := Err(reply.reason);
    } else {
      var result := DecodeParts(reply.parts);
      if result.imageUrl.None? {
        inner := Err(noImage);
      } else {
        inner := Ok(result);
      }
    }
    r := Rethrow(inner, failure);
  }

  // ---------------------------------------------------------------------------
  // The five operations
  // ---------------------------------------------------------------------------

  datatype GenerateRequest = GenerateRequest(prompt: string, numberOfImages: nat, outputMimeType: string, aspectRatio: AspectRatio)

  /** The reply of the text-to-image call: a rejection, or the generated images' base64 bytes. */
  datatype GenerateReply = GenerateRejected(reason: string) | Generated(images: seq<DataUrl.Base64>)

  function GenerateRequestFor(prompt: string, options: GenerateImageOptions): GenerateRequest
  {
    GenerateRequest(FullPrompt(prompt, options), 1, JpegMime, options.aspectRatio)
  }

  /** generateImage: the first generated image as a JPEG data URL, or the fixed failure message. */
  function GenerateImage(prompt: string, options: GenerateImageOptions, service: GenerateRequest -> GenerateReply): (r: Result<string>)
    ensures var reply := service(GenerateRequestFor(prompt, options));
            r.Ok? <==> reply.Generated? && |reply.images| > 0
    ensures var reply := service(GenerateRequestFor(prompt, options));
            r.Ok? ==> reply.Generated? && |reply.images| > 0 && r.value == DataUrl.Build(JpegMime, reply.images[0])
    ensures r.Err? ==> r.message == GenerateFailure
  {
    var reply := service(GenerateRequestFor(prompt, options));
    var inner :=
      match reply
      case GenerateRejected(reason) => Err(reason)
      case Generated(images) =>
        if |images| > 0 then Ok(DataUrl.Build(JpegMime, images[0])) else Err(NoImageGenerated);
    Rethrow(inner, GenerateFailure)
  }

  /** The page reads back, with `split(',')[1]`, exactly the bytes the service generated. */
  lemma GeneratedPayload(prompt: string, options: GenerateImageOptions, service: GenerateRequest -> GenerateReply)
    ensures var r := GenerateImage(prompt, options, service);
            var reply := service(GenerateRequestFor(prompt, options));
            r.Ok? ==> (var bytes: string := reply.images[0]; DataUrl.Payload(r.value) == Some(bytes))
  {
    var r := GenerateImage(prompt, options, service);
    var reply := service(GenerateRequestFor(prompt, options));
    if r.Ok? {
      var bytes: string := reply.images[0];
      assert NotIn(',', JpegMime) by {
        assert JpegMime == ['i', 'm', 'a', 'g', 'e', '/', 'j', 'p', 'e', 'g'];
      }
      DataUrl.Base64HasNoComma(reply.images[0]);
      DataUrl.PayloadOfBuild(JpegMime, bytes);
    }
  }

  method EditImage(prompt: string, base64ImageData: string, mimeType: string, isProMode: bool, strength: real,
                   service: seq<RequestPart> -> ContentReply)
    returns (r: Result<EditedImageResult>)
    ensures r == Settle(service(EditParts(prompt, base64ImageData, mimeType, isProMode, strength)), NoEditedImage, EditFailure)
  {
    r := SendAndDecode(EditParts(prompt, base64ImageData, mimeType, isProMode, strength), service, NoEditedImage, EditFailure);
  }

  method InpaintImage(prompt: string, base64ImageData: string, mimeType: string, base64MaskData: string,
                      service: seq<RequestPart> -> ContentReply)
    returns (r: Result<EditedImageResult>)
    ensures r == Settle(service(InpaintParts(prompt, base64ImageData, mimeType, base64MaskData)), NoInpaintedImage, InpaintFailure)
  {
    r := SendAndDecode(InpaintParts(prompt, base64ImageData, mimeType, base64MaskData), service, NoInpaintedImage, InpaintFailure);
  }

  method RemoveBackground(base64ImageData: string, mimeType: string, service: seq<RequestPart> -> ContentReply)
    returns (r: Result<EditedImageResult>)
    ensures r == Settle(service(RemoveBackgroundParts(base64ImageData, mimeType)), NoBackgroundRemoved, RemoveBackgroundFailure)
  {
    r := SendAndDecode(RemoveBackgroundParts(base64ImageData, mimeType), service, NoBackgroundRemoved, RemoveBackgroundFailure);
  }

  method SketchToImage(prompt: string, base64SketchData: string, service: seq<RequestPart> -> ContentReply)
    returns (r: Result<EditedImageResult>)
    ensures r == Settle(service(SketchParts(prompt, base64SketchData)), NoSketchImage, SketchFailure)
  {
    r := SendAndDecode(SketchParts(prompt, base64SketchData), service, NoSketchImage, SketchFailure);
  }
}
