/** The pre- and post-processing around the two generative-model calls: text
    extraction from an uploaded document and speech synthesis. The model
    client itself is foreign: each call is a function parameter that maps the
    request sent to what came back (a response or a thrown error). */
module GeminiService {
  import opened Wrappers
  import opened JsString
  import opened Types

  const OcrModel: string := "gemini-2.5-flash"
  const TtsModel: string := "gemini-2.5-flash-preview-tts"
  const OcrPrompt: string := "Extract all text from this document. If it is a multi-page PDF, process all pages in order. Preserve the original structure, paragraphs, and lists. Return ONLY the extracted text. Do not include markdown code blocks (```) or any introductory/concluding remarks."

  const OcrFailureMessage: string := "Failed to extract text. Ensure the file is legible and under 20MB."
  const TtsFailureMessage: string := "Failed to generate speech."

  /** What a foreign call produced: a response, or an error it threw. */
  datatype ApiOutcome<+T> = Returned(response: T) | Threw(message: string)

  /** One inline document part (its MIME type and base64 data); every such
      request also carries the fixed instruction `OcrPrompt` as its second
      part, which is therefore not a field. */
  datatype OcrRequest = OcrRequest(model: string, mimeType: string, data: string)
  /** The reply's `text` accessor, which may be undefined. */
  datatype OcrResponse = OcrResponse(text: Option<string>)

  /** A single text part, audio modality requested, with a prebuilt voice. */
  datatype SpeechRequest = SpeechRequest(model: string, text: string, voiceName: string)
  /** The part of the reply the application looks into; every level may be
      missing. */
  datatype SpeechResponse = SpeechResponse(candidates: Option<seq<Candidate>>)
  datatype Candidate = Candidate(content: Option<Content>)
  datatype Content = Content(parts: Option<seq<Part>>)
  datatype Part = Part(inlineData: Option<InlineData>)
  datatype InlineData = InlineData(data: Option<string>)

  /** `base64Data.split(',')[1] || base64Data`: the text between the first and
      the second comma, unless there is no comma or that text is empty, in
      which case the input unchanged. */
  function StripDataUrlPrefix(base64Data: string): (r: string)
    ensures r == base64Data || (r != "" && ',' !in r)
  {
    var parts := Split(base64Data, ',');
    if |parts| > 1 && parts[1] != "" then parts[1] else base64Data
  }

  /** Without a comma the input is the payload. */
  lemma StripWithoutComma(base64Data: string)
    requires ',' !in base64Data
    ensures StripDataUrlPrefix(base64Data) == base64Data
  {
    SplitWithoutSeparator(base64Data, ',');
  }

  /** With a comma, the payload is the segment after the first comma up to the
      next comma (or the end), when that segment is non-empty; otherwise the
      whole input. */
  lemma StripWithComma(base64Data: string)
    requires ',' in base64Data
    ensures var i := IndexOf(base64Data, ',');
      var rest := base64Data[i + 1..];
      var segment := if ',' in rest then rest[..IndexOf(rest, ',')] else rest;
      StripDataUrlPrefix(base64Data) == if segment != "" then segment else base64Data
  {
    var i := IndexOf(base64Data, ',');
    SplitAtFirst(base64Data, ',');
    FirstPiece(base64Data[i + 1..], ',');
  }

  /** The standard data-URL form `data:<type>;base64,<payload>` yields the
      payload, provided it is non-empty and has no comma. */
  lemma StripDataUrl(header: string, payload: string)
    requires ',' !in header && ',' !in payload && payload != ""
    ensures StripDataUrlPrefix(header + "," + payload) == payload
  {
    var s := header + "," + payload;
    assert s[|header|] == ',';
    assert s[..|header|] == header;
    assert s[|header| + 1..] == payload;
    StripWithComma(s);
  }

  /** The OCR request: the OCR model, the file's MIME type and the stripped
      payload, which is the whole input or a non-empty comma-free segment. */
  function OcrRequestFor(base64Data: string, mimeType: string): (r: OcrRequest)
    ensures r.model == OcrModel && r.mimeType == mimeType
    ensures r.data == base64Data || (r.data != "" && ',' !in r.data)
  {
    OcrRequest(OcrModel, mimeType, StripDataUrlPrefix(base64Data))
  }

  /** `extractTextFromImage`: sends one request and accepts a reply whose text
      is present and non-empty, trimmed. Every failure inside the `try` (a
      thrown call, a missing or empty text) carries the same message; the
      client construction before the `try` is taken not to throw. */
  function ExtractTextFromImage(base64Data: string, mimeType: string,
                                generate: OcrRequest -> ApiOutcome<OcrResponse>): (r: Result<string, string>)
    ensures r.Failure? ==> r.error == OcrFailureMessage
    ensures r.Success? ==> Trim(r.value) == r.value
  {
    match generate(OcrRequestFor(base64Data, mimeType))
    case Threw(_) => Failure(OcrFailureMessage)
    case Returned(response) =>
      if response.text.None? || response.text.value == "" then Failure(OcrFailureMessage)
      else TrimIdempotent(response.text.value); Success(Trim(response.text.value))
  }

  /** Extraction succeeds exactly when the call returned a present, non-empty
      text; the value is that text trimmed. */
  lemma ExtractSucceedsIff(base64Data: string, mimeType: string, generate: OcrRequest -> ApiOutcome<OcrResponse>)
    ensures var reply := generate(OcrRequest(OcrModel, mimeType, StripDataUrlPrefix(base64Data)));
      var r := ExtractTextFromImage(base64Data, mimeType, generate);
      && (r.Success? <==> reply.Returned? && reply.response.text.Some? && reply.response.text.value != "")
      && (r.Success? ==> r.value == Trim(reply.response.text.value))
  {
    match generate(OcrRequestFor(base64Data, mimeType))
    case Threw(_) =>
    case Returned(response) =>
  }

  /** A reply of nothing but white space passes the emptiness test and
      yields the empty text. */
  lemma WhiteSpaceReplyYieldsEmptyText(base64Data: string, mimeType: string,
                                       generate: OcrRequest -> ApiOutcome<OcrResponse>, blank: string)
    requires blank != "" && AllWhiteSpace(blank)
    requires generate(OcrRequest(OcrModel, mimeType, StripDataUrlPrefix(base64Data))) == Returned(OcrResponse(Some(blank)))
    ensures ExtractTextFromImage(base64Data, mimeType, generate) == Success("")
  {
    TrimEmpty(blank);
  }

  /** `response.candidates?.[0]?.content?.parts?.[0]?.inlineData?.data`. */
  function AudioPayload(response: SpeechResponse): (r: Option<string>)
    ensures r.Some? ==> response.candidates.Some? && |response.candidates.value| > 0
  {
    match response.candidates
    case None => None
    case Some(candidates) =>
      if |candidates| == 0 then None
      else match candidates[0].content
        case None => None
        case Some(content) =>
          match content.parts
          case None => None
          case Some(parts) =>
            if |parts| == 0 then None
            else match parts[0].inlineData
              case None => None
              case Some(inline) => inline.data
  }

  /** The chain yields a value exactly when every link is present, and then
      it is the data of the first part of the first candidate. */
  lemma AudioPayloadPresent(response: SpeechResponse, data: string)
    ensures AudioPayload(response) == Some(data) <==>
      && response.candidates.Some? && |response.candidates.value| > 0
      && response.candidates.value[0].content.Some?
      && response.candidates.value[0].content.value.parts.Some?
      && |response.candidates.value[0].content.value.parts.value| > 0
      && response.candidates.value[0].content.value.parts.value[0].inlineData.Some?
      && response.candidates.value[0].content.value.parts.value[0].inlineData.value.data == Some(data)
  {
    match response.candidates
    case None =>
    case Some(candidates) =>
      if |candidates| > 0 {
        match candidates[0].content
        case None =>
        case Some(content) =>
      }
  }

  /** The speech request: the TTS model, the text as given (not trimmed) and
      the voice's prebuilt name. */
  function SpeechRequestFor(text: string, voice: VoiceName): (r: SpeechRequest)
    ensures r.model == TtsModel && r.text == text && r.voiceName == voice.Name()
  {
    SpeechRequest(TtsModel, text, voice.Name())
  }

  /** `generateSpeech`: one request; a missing or empty audio payload is an
      error, any other payload is returned exactly as received. Every failure
      inside the `try` carries the same message; the client construction
      before the `try` is taken not to throw. */
  function GenerateSpeech(text: string, voice: VoiceName,
                          generate: SpeechRequest -> ApiOutcome<SpeechResponse>): (r: Result<string, string>)
    ensures r.Failure? ==> r.error == TtsFailureMessage
    ensures r.Success? ==> r.value != ""
  {
    match generate(SpeechRequestFor(text, voice))
    case Threw(_) => Failure(TtsFailureMessage)
    case Returned(response) =>
      var payload := AudioPayload(response);
      if payload.None? || payload.value == "" then Failure(TtsFailureMessage) else Success(payload.value)
  }

  /** Synthesis succeeds exactly when the call returned a non-empty payload,
      and then the payload is returned unmodified. */
  lemma GenerateSpeechSucceedsIff(text: string, voice: VoiceName,
                                  generate: SpeechRequest -> ApiOutcome<SpeechResponse>, audio: string)
    ensures var reply := generate(SpeechRequest(TtsModel, text, voice.Name()));
      GenerateSpeech(text, voice, generate) == Success(audio) <==>
        reply.Returned? && AudioPayload(reply.response) == Some(audio) && audio != ""
  {
  }
}
