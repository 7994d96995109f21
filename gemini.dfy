/**
 * The decision rules of the Gemini service layer: which files are rasterized before
 * analysis, the MIME type and payload of the inline data part, the analysis scale,
 * and what the two generators make of an empty response. FileReader, the image
 * decoder, the canvas and the SDK are inputs: what they produced, or that they failed.
 */
module Gemini {
  import opened Wrappers
  import opened Types
  import opened Text
  import opened Imaging

  // --------------------------------------------------------------- SVG test

  /** `file.type === 'image/svg+xml' || file.name.toLowerCase().endsWith('.svg')`. */
  predicate IsSvg(file: File) {
    file.mimeType == "image/svg+xml" || EndsWith(Lower(file.name), ".svg")
  }

  predicate IsLetter(ch: char, lower: char) {
    ch == lower || ch == UpperChar(lower)
  }

  /**
   * The rasterizing branch is taken exactly when the type is `image/svg+xml` or the
   * name's last four characters are a dot and `s`, `v`, `g` in either case.
   */
  lemma IsSvgByCharacters(file: File)
    ensures IsSvg(file) <==>
      || file.mimeType == "image/svg+xml"
      || (var n := file.name;
          && |n| >= 4
          && n[|n| - 4] == '.'
          && IsLetter(n[|n| - 3], 's') && IsLetter(n[|n| - 2], 'v') && IsLetter(n[|n| - 1], 'g'))
  {
    var n := file.name;
    if |n| >= 4 {
      var tail := Lower(n)[|n| - 4..];
      assert tail == [LowerChar(n[|n| - 4]), LowerChar(n[|n| - 3]), LowerChar(n[|n| - 2]), LowerChar(n[|n| - 1])];
      assert ".svg" == ['.', 's', 'v', 'g'];
    }
  }

  // ---------------------------------------------------------------- data URL

  /** The data URL FileReader and `canvas.toDataURL` produce for a base64 payload. */
  function MakeDataUrl(mimeType: string, payload: string): string {
    "data:" + mimeType + ";base64," + payload
  }

  /**
   * `url.split(",")[1]`: the text between the first comma and the next one (or the
   * end); undefined when the URL has no comma.
   */
  function DataUrlPayload(url: string): (payload: Option<string>)
    ensures payload.None? <==> ',' !in url
    ensures payload.Some? ==> ',' !in payload.value
    ensures payload.Some? ==> payload.value == FirstPiece(url[|FirstPiece(url, ',')| + 1..], ',')
  {
    var pieces := Split(url, ',');
    if |pieces| > 1 then
      var head := FirstPiece(url, ',');
      var rest := url[|head| + 1..];
      assert url == head + [','] + rest;
      SplitAfter(head, ',', rest);
      Some(pieces[1])
    else
      assert url == Join(pieces, [',']) == pieces[0];
      None
  }

  /** The payload of a data URL is read back whole when neither it nor the type holds a comma. */
  lemma DataUrlRoundTrip(mimeType: string, payload: string)
    requires ',' !in mimeType && ',' !in payload
    ensures DataUrlPayload(MakeDataUrl(mimeType, payload)) == Some(payload)
  {
    var head := "data:" + mimeType + ";base64";
    assert ',' !in "data:" && ',' !in ";base64";
    assert ',' !in head;
    assert MakeDataUrl(mimeType, payload) == head + [','] + payload;
    SplitAfter(head, ',', payload);
    SplitWithout(payload, ',');
  }

  // --------------------------------------------------------- analysis scale

  /** `Math.min(1, maxDim / Math.max(width, height))` with `maxDim` = 1024. */
  function AnalysisScale(width: nat, height: nat): (scale: real)
    requires LongestEdge(width, height) > 0
    ensures 0.0 < scale <= 1.0
    ensures LongestEdge(width, height) <= 1024 ==> scale == 1.0
    ensures LongestEdge(width, height) > 1024 ==> scale * LongestEdge(width, height) as real == 1024.0
  {
    var fit := 1024.0 / LongestEdge(width, height) as real;
    if 1.0 <= fit then 1.0 else fit
  }

  /** What decoding the read data URL as an image gave: its sizes, or an `onerror`. */
  datatype Decoded = Image(naturalWidth: nat, width: nat, naturalHeight: nat, height: nat) | DecodeFailed

  /**
   * The canvas the SVG is drawn on: each dimension (natural size, declared size, or
   * 1024) times the scale. The canvas's truncation to whole pixels is not modelled.
   */
  function AnalysisCanvas(image: Decoded): (canvas: (real, real))
    requires image.Image?
  {
    var w := Dimension(image.naturalWidth, image.width, 1024);
    var h := Dimension(image.naturalHeight, image.height, 1024);
    var scale := AnalysisScale(w, h);
    (Scaled(w, scale), Scaled(h, scale))
  }

  /** An edge of at most `longest` pixels, scaled by a factor that brings `longest` within 1024. */
  lemma ShrunkEdge(edge: nat, longest: nat, scale: real)
    requires edge <= longest && 0.0 < scale <= 1.0
    requires longest <= 1024 || scale * longest as real == 1024.0
    ensures 0.0 <= Scaled(edge, scale) <= edge as real
    ensures edge > 0 ==> 0.0 < Scaled(edge, scale)
    ensures Scaled(edge, scale) <= 1024.0
    ensures scale == 1.0 ==> Scaled(edge, scale) == edge as real
  {
    var e, l := edge as real, longest as real;
    assert Scaled(edge, scale) == e * scale;
    assert e * scale <= e * 1.0 by {
      assert (1.0 - scale) * e >= 0.0;
    }
    assert edge > 0 ==> e * scale > 0.0;
    if longest > 1024 {
      assert (l - e) * scale >= 0.0;
      assert l * scale == 1024.0;
    }
  }

  /**
   * The analysis image is never upscaled and its long edge is at most 1024 pixels;
   * an image already within 1024 pixels keeps its size.
   */
  lemma AnalysisCanvasBounds(image: Decoded)
    requires image.Image?
    ensures var w := Dimension(image.naturalWidth, image.width, 1024);
      var h := Dimension(image.naturalHeight, image.height, 1024);
      var canvas := AnalysisCanvas(image);
      && 0.0 < canvas.0 <= w as real && 0.0 < canvas.1 <= h as real
      && canvas.0 <= 1024.0 && canvas.1 <= 1024.0
      && (LongestEdge(w, h) <= 1024 ==> canvas.0 == w as real && canvas.1 == h as real)
  {
    var w := Dimension(image.naturalWidth, image.width, 1024);
    var h := Dimension(image.naturalHeight, image.height, 1024);
    var scale := AnalysisScale(w, h);
    ShrunkEdge(w, LongestEdge(w, h), scale);
    ShrunkEdge(h, LongestEdge(w, h), scale);
  }

  // ------------------------------------------------------------ data part

  /** `{ inlineData: { data, mimeType } }`; `data` is undefined when the data URL had no comma. */
  datatype DataPart = DataPart(data: Option<string>, mimeType: string)

  const ReadFailedMessage: string := "Failed to read file."
  const RenderFailedMessage: string := "Failed to render SVG for analysis. Check if the file is a valid vector."
  const NoContextMessage: string := "Failed to get canvas context"

  /**
   * `fileToDataPart`. `read` is the data URL FileReader produced, or `None` when it
   * failed; `image` is what the decoder made of it; `hasContext` says whether a 2D
   * context was available; `toJpeg` is what `canvas.toDataURL('image/jpeg')` yields
   * for a canvas of the given size.
   */
  function FileToDataPart(file: File, read: Option<string>, image: Decoded, hasContext: bool,
                          toJpeg: ((real, real)) -> string): (r: Result<DataPart, Thrown>)
    ensures IsSvg(file) ==>
      && (read.None? ==> r == Failure(Thrown(Some(ReadFailedMessage))))
      && (read.Some? && image.DecodeFailed? ==> r == Failure(Thrown(Some(RenderFailedMessage))))
      && (read.Some? && image.Image? && !hasContext ==> r == Failure(Thrown(Some(NoContextMessage))))
      && (r.Success? <==> read.Some? && image.Image? && hasContext)
      && (r.Success? ==> r.value.mimeType == "image/jpeg")
    ensures !IsSvg(file) ==>
      && (r.Success? <==> read.Some?)
      && (read.None? ==> r == Failure(Thrown(None)))
      && (r.Success? ==> r.value.mimeType == if file.mimeType != "" then file.mimeType else "image/jpeg")
      && (r.Success? ==> r.value.data == DataUrlPayload(read.value))
  {
    if IsSvg(file) then
      match read
      case None => Failure(Thrown(Some(ReadFailedMessage)))
      case Some(_) =>
        match image
        case DecodeFailed => Failure(Thrown(Some(RenderFailedMessage)))
        case Image(_, _, _, _) =>
          if !hasContext then Failure(Thrown(Some(NoContextMessage)))
          else Success(DataPart(DataUrlPayload(toJpeg(AnalysisCanvas(image))), "image/jpeg"))
    else
      match read
      case None => Failure(Thrown(None))
      case Some(url) => Success(DataPart(DataUrlPayload(url), if file.mimeType != "" then file.mimeType else "image/jpeg"))
  }

  /**
   * A non-SVG file whose data URL carries a comma-free type and payload is sent as that
   * payload, under its own type or `image/jpeg` when it has none.
   */
  lemma NonSvgPayload(file: File, payload: string, image: Decoded, hasContext: bool, toJpeg: ((real, real)) -> string)
    requires !IsSvg(file) && ',' !in file.mimeType && ',' !in payload
    ensures FileToDataPart(file, Some(MakeDataUrl(file.mimeType, payload)), image, hasContext, toJpeg)
      == Success(DataPart(Some(payload), if file.mimeType != "" then file.mimeType else "image/jpeg"))
  {
    DataUrlRoundTrip(file.mimeType, payload);
  }

  /** An SVG that reads, decodes and draws is sent as the JPEG payload of its scaled canvas. */
  lemma SvgPayload(file: File, read: string, image: Decoded, toJpeg: ((real, real)) -> string, payload: string)
    requires IsSvg(file) && image.Image? && ',' !in payload
    requires toJpeg(AnalysisCanvas(image)) == MakeDataUrl("image/jpeg", payload)
    ensures FileToDataPart(file, Some(read), image, true, toJpeg) == Success(DataPart(Some(payload), "image/jpeg"))
  {
    DataUrlRoundTrip("image/jpeg", payload);
  }

  // ------------------------------------------------------------ responses

  const NoResponseMessage: string := "No response from AI"
  const PromptFallback: string := "Failed to generate prompt."

  /** `!text`: the response text is undefined or empty. */
  predicate IsEmptyText(text: Option<string>) {
    text.None? || text.value == ""
  }

  /**
   * The end of `generateVectorMetadata`: an empty response throws "No response from
   * AI"; otherwise the text is handed to the JSON parser (`parse`, which may throw).
   */
  function VectorMetadataFromResponse(text: Option<string>, parse: string -> Result<VectorMetadata, Thrown>)
    : (r: Result<VectorMetadata, Thrown>)
    ensures IsEmptyText(text) ==> r == Failure(Thrown(Some(NoResponseMessage)))
    ensures !IsEmptyText(text) ==> r == parse(text.value)
  {
    match text
    case None => Failure(Thrown(Some(NoResponseMessage)))
    case Some(t) => if t == "" then Failure(Thrown(Some(NoResponseMessage))) else parse(t)
  }

  /**
   * The end of `generateImagePrompt`: `response.text || "Failed to generate prompt."`.
   * It never fails and never yields an empty prompt.
   */
  function ImagePromptFromResponse(text: Option<string>): (prompt: string)
    ensures prompt != ""
    ensures IsEmptyText(text) <==> prompt == PromptFallback && text != Some(PromptFallback)
    ensures !IsEmptyText(text) ==> prompt == text.value
  {
    match text
    case None => PromptFallback
    case Some(t) => if t == "" then PromptFallback else t
  }

  // ---------------------------------------------------------- whole calls

  /**
   * `fileToDataPart` followed by `generateVectorMetadata`: the first failure is the
   * outcome. `respond` stands for the awaited SDK call on the data part: the response
   * text (possibly undefined), or what the rejected call threw.
   */
  function AnalyzeVector(file: File, read: Option<string>, image: Decoded, hasContext: bool,
                         toJpeg: ((real, real)) -> string,
                         respond: DataPart -> Result<Option<string>, Thrown>,
                         parse: string -> Result<VectorMetadata, Thrown>): (r: Result<VectorMetadata, Thrown>)
    ensures FileToDataPart(file, read, image, hasContext, toJpeg).Failure? ==>
      r == Failure(FileToDataPart(file, read, image, hasContext, toJpeg).error)
    ensures FileToDataPart(file, read, image, hasContext, toJpeg).Success? ==>
      var answer := respond(FileToDataPart(file, read, image, hasContext, toJpeg).value);
      && (answer.Failure? ==> r == Failure(answer.error))
      && (answer.Success? ==> r == VectorMetadataFromResponse(answer.value, parse))
  {
    match FileToDataPart(file, read, image, hasContext, toJpeg)
    case Failure(e) => Failure(e)
    case Success(part) =>
      match respond(part)
      case Failure(e) => Failure(e)
      case Success(text) => VectorMetadataFromResponse(text, parse)
  }

  /**
   * `fileToDataPart` followed by `generateImagePrompt`: the encoder or the SDK call can
   * fail; an empty answer is not a failure but the fallback prompt.
   */
  function AnalyzePrompt(file: File, read: Option<string>, image: Decoded, hasContext: bool,
                         toJpeg: ((real, real)) -> string,
                         respond: DataPart -> Result<Option<string>, Thrown>): (r: Result<string, Thrown>)
    ensures r.Failure? <==>
      || FileToDataPart(file, read, image, hasContext, toJpeg).Failure?
      || respond(FileToDataPart(file, read, image, hasContext, toJpeg).value).Failure?
    ensures FileToDataPart(file, read, image, hasContext, toJpeg).Failure? ==>
      r.error == FileToDataPart(file, read, image, hasContext, toJpeg).error
    ensures FileToDataPart(file, read, image, hasContext, toJpeg).Success? ==>
      var answer := respond(FileToDataPart(file, read, image, hasContext, toJpeg).value);
      && (answer.Failure? ==> r.error == answer.error)
      && (answer.Success? ==> r.value == ImagePromptFromResponse(answer.value))
    ensures r.Success? ==> r.value != ""
  {
    match FileToDataPart(file, read, image, hasContext, toJpeg)
    case Failure(e) => Failure(e)
    case Success(part) =>
      match respond(part)
      case Failure(e) => Failure(e)
      case Success(text) => Success(ImagePromptFromResponse(text))
  }
}
