# VisionVoice core, modelled in Dafny

VisionVoice is a single-page web application: the user uploads an image or a
PDF, a generative vision model extracts its text (OCR), the user may edit the
text, and a text-to-speech model reads it aloud; the audio can be downloaded
as a WAV file and the text copied or downloaded. This project models the
logic under the user interface:

- **the WAV container writer** (`pcmToWavBlob`, `writeString`) and the byte
  copy of `decodeBase64` — imperative Dafny over `array<byte>`, proved equal
  to a byte-layout specification of the canonical 44-byte RIFF/WAVE header
  (Microsoft/IBM *Multimedia Programming Interface and Data Specifications
  1.0*), with parse/serialise round trips;
- **the request/response rules** around the two model calls: data-URL prefix
  stripping, "empty reply is an error, otherwise trim", "missing audio
  payload is an error", and the single fixed failure message of each call;
- **the page's state machine**: a class `App` whose fields are the page state
  (`ocrState`, `fileType`, `extractedText`, `copied`, `audioState`,
  `selectedVoice`, the playback node reference and the stored audio bytes),
  with one method per event handler and an invariant `Valid()` that every
  handler preserves.

Files: `wrappers.dfy` (Option, Result), `bytes.dfy` (bytes, ToUint8, the
little-endian 16/32-bit field codec), `wav.dfy` (WAVE header layout, parser,
serialiser), `audio_helper.dfy` (the writer and decoder methods),
`js_string.dfy` (`split`, `trim`, `startsWith`, number to decimal string,
and a first-occurrence search that serves as the reference for `split`), `types.dfy` (voices and state records), `gemini_service.dfy`
(the service rules), `app.dfy` (upload checks and the `App` class).

Modelling choices:

- Foreign calls are parameters. The model client is a function from the
  request sent to what came back (`Returned(response)` or `Threw(message)`);
  `atob` is a function from the base64 text to the decoded binary string or
  the error message; the Web Audio decode-and-play step is a function from
  the PCM bytes to the error it throws, if any; the file reader's result, the
  clipboard's success and `Date.now()` are plain inputs. Handlers return the
  request they send, or the download they trigger, so that "no request is
  made" can be stated.
- Each handler runs to completion before the next event, as the code
  assumes. The reader's `onload` is its own method (`OnFileRead`), called by
  `HandleFileUpload`; the tail of `handlePlayAudio` after its guards is
  `SynthesizeAndPlay`.
- `DataView.setUint16`/`setUint32` reduce their value modulo 2^16/2^32
  (ECMAScript ToUint16/ToUint32); the model writes that reduction out, so no
  precondition limits the sizes. `Uint8Array` stores and `setUint8` reduce
  modulo 2^8.
- A JavaScript string is a Dafny `string`, a sequence of Unicode scalar values;
  for the strings that reach `charCodeAt` (the ASCII tags and `atob` output,
  all below U+0100) one `char` is one UTF-16 code unit.
- Two behaviours of the code are kept as written: blank text makes the play
  handler return silently (no error is reported), and a reply consisting only of white space passes the
  "empty reply" test and yields the empty text
  (`GeminiService.WhiteSpaceReplyYieldsEmptyText`).

## Model

| member | source | states |
|---|---|---|
| Bytes.ToUint8 | utils/audioHelper.ts:9 | the stored byte is congruent to the value modulo 256 (ECMAScript ToUint8) |
| Bytes.CharByte | utils/audioHelper.ts:110 | a character's byte is its code unit reduced to a byte; codes below 256 are kept exactly |
| Bytes.Le16 | utils/audioHelper.ts:85 | `setUint16(..., true)` writes exactly two bytes |
| Bytes.Le32 | utils/audioHelper.ts:77 | `setUint32(..., true)` writes exactly four bytes |
| Bytes.ReadLe16OfLe16 | utils/audioHelper.ts:87 | reading a written 16-bit field gives the value modulo 2^16 |
| Bytes.ReadLe32OfLe32 | utils/audioHelper.ts:89 | reading a written 32-bit field gives the value modulo 2^32 |
| Bytes.Le16OfReadLe16 | utils/audioHelper.ts:93 | re-encoding a 16-bit field read from any bytes reproduces those bytes |
| Bytes.Le32OfReadLe32 | utils/audioHelper.ts:99 | re-encoding a 32-bit field read from any bytes reproduces those bytes |
| Bytes.ReadLe32Range | utils/audioHelper.ts:99 | a 32-bit field read back lies in [0, 2^32) |
| Wav.Truncated | utils/audioHelper.ts:77-99 | reducing each header field to its width gives a header whose fields all fit |
| Wav.HeaderBytes | utils/audioHelper.ts:71 | the header is exactly 44 bytes |
| Wav.Serialize | utils/audioHelper.ts:71 | a file is 44 bytes longer than its sample data |
| Wav.Parse | utils/audioHelper.ts:74-103 | a parsed header has every field in range and the samples are the bytes after offset 44 |
| Wav.HeaderLayout | utils/audioHelper.ts:74-99 | "RIFF" at 0, RIFF size at 4, "WAVE" at 8, "fmt " at 12, fmt size 16, format 20, channels 22, rate 24, byte rate 28, block align 32, bits 34, "data" at 36, data size at 40 |
| Wav.ParseSerialize | utils/audioHelper.ts:74-103 | parsing a serialised file gives back each header field modulo its width and the samples unchanged |
| Wav.SerializeParse | utils/audioHelper.ts:74-103 | serialising whatever parses reproduces the input byte for byte |
| AudioHelper.CharBytes | utils/audioHelper.ts:108-111 | one byte per character, byte k being character k's byte |
| AudioHelper.SetUint8 | utils/audioHelper.ts:110 | only the addressed byte changes, to the value modulo 256 |
| AudioHelper.SetUint16 | utils/audioHelper.ts:85-95 | bytes off, off+1 become the little-endian field; all others keep their value |
| AudioHelper.SetUint32 | utils/audioHelper.ts:77-99 | bytes off..off+3 become the little-endian field; all others keep their value |
| AudioHelper.WriteString | utils/audioHelper.ts:108-111 | byte offset+i becomes the code of character i, for every i, and no other byte changes |
| AudioHelper.CopyInto | utils/audioHelper.ts:102-103 | the source bytes land from the offset on, in order; the rest of the buffer is untouched |
| AudioHelper.TagBytes | utils/audioHelper.ts:75-97 | the codes of "RIFF", "WAVE", "fmt " and "data" are the WAVE chunk identifiers |
| AudioHelper.PcmHeader | utils/audioHelper.ts:67-70 | a 16-byte PCM fmt chunk (format 1, 16 bits); RIFF size = data size + 36, block align = channels × bytes per sample, byte rate = sample rate × block align |
| AudioHelper.PcmWavBytes | utils/audioHelper.ts:71-103 | the file the writer builds: 44 + n bytes whose bytes from offset 44 on are the PCM data; its fields are read back by PcmWavFields |
| AudioHelper.PcmToWavBlob | utils/audioHelper.ts:66-106 | the blob, typed "audio/wav", is exactly the 44-byte header the writer computes followed by the PCM bytes; its length is 44 + the PCM length |
| AudioHelper.PcmWavFields | utils/audioHelper.ts:67-103 | tags at 0, 8, 12, 36; RIFF size (36 + data size) mod 2^32; fmt size 16; format 1; channels mod 2^16; rate mod 2^32; byte rate rate·channels·2 mod 2^32; block align channels·2 mod 2^16; 16 bits; data size mod 2^32; bytes from 44 on are the PCM data |
| AudioHelper.PcmWavParses | utils/audioHelper.ts:66-103 | parsing the written file yields the writer's header, fields reduced, and exactly the PCM data |
| AudioHelper.PcmWavLengthFields | utils/audioHelper.ts:70-77 | the file is 44 + n bytes; its two length fields read (36 + n) and n modulo 2^32 |
| AudioHelper.PcmWavLengthsExact | utils/audioHelper.ts:77-99 | when 36 + n < 2^32, the RIFF size is the file length less 8 and the data size is n |
| AudioHelper.DefaultFormat | utils/audioHelper.ts:66-69 | with the 24 kHz mono defaults: 1 channel, rate 24000, byte rate 48000, block align 2 |
| AudioHelper.DecodeBase64 | utils/audioHelper.ts:4-12 | a fresh array as long as the binary string, byte i being the code of character i reduced to a byte |
| JsString.IndexOf | services/geminiService.ts:18 | reference for the first comma that `split(',')` cuts at (the source calls no `indexOf`): -1 exactly when the character is absent; otherwise a position holding it with no earlier occurrence |
| JsString.Split | services/geminiService.ts:18 | at least one piece, and no piece contains the separator |
| JsString.JoinSplit | services/geminiService.ts:18 | joining the pieces with the separator gives back the input |
| JsString.SplitWithoutSeparator | services/geminiService.ts:18 | without the separator the only piece is the input |
| JsString.SplitAtFirst | services/geminiService.ts:18 | the first piece is the text before the first separator, the rest are the pieces of the text after it |
| JsString.FirstPiece | services/geminiService.ts:18 | the first piece is the text up to the first separator, or all of it |
| JsString.TrimStart | services/geminiService.ts:42 | a suffix of the input, the dropped prefix all white space, not starting with white space |
| JsString.TrimEnd | services/geminiService.ts:42 | a prefix of the input, the dropped suffix all white space, not ending with white space |
| JsString.Trim | services/geminiService.ts:42 | `trim()` as TrimEnd after TrimStart; what it means is stated by TrimIsMiddle (a slice with only white space around it and white space at neither end), TrimEmpty and TrimIdempotent |
| JsString.TrimIsMiddle | services/geminiService.ts:42 | the trimmed text is a contiguous slice of the input with only white space around it, and neither starts nor ends with white space |
| JsString.TrimEmpty | App.tsx:131 | the trimmed text is empty exactly when the input is all white space |
| JsString.TrimIdempotent | services/geminiService.ts:42 | trimming twice equals trimming once |
| JsString.NatToString | App.tsx:180 | a non-empty string of decimal digits |
| JsString.Digit | App.tsx:204 | the digit character of d has code '0' + d |
| JsString.NatToStringValue | App.tsx:180 | the digits denote the number and have no leading zero |
| GeminiService.StripDataUrlPrefix | services/geminiService.ts:18 | `split(",")[1]`, falling back to the input: either the input unchanged or a non-empty comma-free segment; characterised by StripWithoutComma and StripWithComma |
| GeminiService.StripWithoutComma | services/geminiService.ts:18 | input without a comma is returned unchanged |
| GeminiService.StripWithComma | services/geminiService.ts:18 | with a comma, the segment between the first and the next comma (or the end) if non-empty, else the whole input |
| GeminiService.StripDataUrl | services/geminiService.ts:17-18 | "header,payload" with a comma-free non-empty payload yields the payload |
| GeminiService.OcrRequestFor | services/geminiService.ts:21-36 | the request goes to gemini-2.5-flash with the file's MIME type and the stripped payload (the whole input or a non-empty comma-free segment) |
| GeminiService.ExtractTextFromImage | services/geminiService.ts:11-47 | every failure carries the one fixed message; a success is already trimmed |
| GeminiService.ExtractSucceedsIff | services/geminiService.ts:18-42 | for the request carrying the stripped payload, success exactly when a present non-empty text came back, and then the value is that text trimmed |
| GeminiService.WhiteSpaceReplyYieldsEmptyText | services/geminiService.ts:38-42 | a non-empty all-white-space reply succeeds with the empty text |
| GeminiService.AudioPayload | services/geminiService.ts:72 | the optional chain; a value needs at least one candidate, and AudioPayloadPresent gives the exact condition |
| GeminiService.AudioPayloadPresent | services/geminiService.ts:72 | the optional chain yields data exactly when candidate 0, its content, part 0, its inline data and the data are all present |
| GeminiService.SpeechRequestFor | services/geminiService.ts:59-70 | the request goes to gemini-2.5-flash-preview-tts with the text as given, not trimmed, and the voice's prebuilt name |
| GeminiService.GenerateSpeech | services/geminiService.ts:52-83 | every failure carries "Failed to generate speech."; a success is non-empty |
| GeminiService.GenerateSpeechSucceedsIff | services/geminiService.ts:72-78 | success with x exactly when the call returned and the payload is x, non-empty; x is returned unmodified |
| JsString.StartsWith | App.tsx:66 | `startsWith`: true exactly when the prefix fits and agrees with the input character by character |
| AppComponent.IsImage | App.tsx:66 | a case-sensitive test for the prefix "image/"; examples in TypeRule |
| AppComponent.IsPdf | App.tsx:67 | exact equality with "application/pdf"; examples in TypeRule |
| AppComponent.UploadRejection | App.tsx:66-79 | accepted exactly when the type starts with "image/" or is "application/pdf" and the size is at most 19·1024·1024; the type message takes precedence |
| AppComponent.SizeLimitBoundary | App.tsx:75-79 | exactly 19 MiB passes, one byte more is rejected with the size message |
| AppComponent.TypeRule | App.tsx:66-72 | examples: "image/png" and "image/" are images, "image" and "Image/png" are not, a PDF type with parameters is not a PDF, and "text/plain" is rejected with the type message at any size (the general rule is UploadRejection's) |
| AppComponent.App.constructor | App.tsx:24-46 | the initial page state, which satisfies the invariant |
| AppComponent.App.StopAudio | App.tsx:118-128 | the playback node is dropped and "playing" lowered; nothing else changes |
| AppComponent.App.OnFileRead | App.tsx:89-110 | sends the stripped payload; afterwards not extracting, file data URL and name recorded, text replaced on success, error message set on failure |
| AppComponent.App.HandleFileUpload | App.tsx:62-112 | no file: nothing changes; rejected file: only the OCR error changes and no request is sent; accepted: text "", audio state idle, stored audio null, file type set, then the extraction outcome (text or error, text staying "") |
| AppComponent.App.HandleTextChange | App.tsx:114-116 | the edited text replaces the old one and nothing else changes |
| AppComponent.App.HandleVoiceChange | App.tsx:376 | only the selected voice changes |
| AppComponent.App.HandlePlayAudio | App.tsx:130-137 | blank text: nothing changes and no request; playing: only stops; otherwise the synthesis outcome |
| AppComponent.App.SynthesizeAndPlay | App.tsx:139-171 | requests speech for the untrimmed text and voice; failure: error set, stored audio kept; decoded: stored bytes are the binary string's bytes, then playing or the playback error |
| AppComponent.App.OnPlaybackEnded | App.tsx:160-163 | "playing" lowered and the node dropped; nothing else changes |
| AppComponent.App.HandleDownloadAudio | App.tsx:174-185 | no download exactly when no audio is stored; otherwise a "visionvoice-<time>.wav" file holding the WAV of the stored bytes at 24 kHz mono |
| AppComponent.App.HandleCopyText | App.tsx:187-196 | empty text: nothing; otherwise the text is written and "copied" raised if the write succeeded |
| AppComponent.App.OnCopiedTimeout | App.tsx:192 | "copied" lowered, nothing else changes |
| AppComponent.App.HandleDownloadText | App.tsx:198-209 | no download exactly when the text is empty; otherwise "extracted-text-<time>.txt" holding the text as text/plain |
| AppComponent.App.HandleClear | App.tsx:248-254 | OCR state back to its initial value, text and file type "", stored audio null, playback stopped; the audio error and loading flag are kept |

## Left out

- `decodeAudioData`, `playAudioBuffer` and `getAudioContext` (Web Audio, floating-point samples): the decode-and-play step is a parameter giving the error it throws, if any; `getAudioContext` is taken not to throw.
- `atob`, `FileReader`, `navigator.clipboard`, `setTimeout`, `Date.now`, `Blob`, `URL.createObjectURL` and the anchor element: their results are parameters, and a download is returned as a file name and blob; the UTF-8 encoding a text `Blob` applies is not modelled.
- The generative-model client calls: each call is a function parameter; the prompt text is kept as the constant `OcrPrompt` for documentation only (no member uses it; it is not a request field), and the response structure is reduced to the properties the code reads.
- `getClient` (services/geminiService.ts:15 and :56) is taken not to throw. It runs before the `try`, so an error from the client constructor would bypass the catch and reach App.tsx:107 or :169 with its own message rather than the fixed one; the fixed-message contracts of `GeminiService.ExtractTextFromImage` and `GeminiService.GenerateSpeech` cover only failures inside the `try`.
- `console.error` logging in the service catch blocks.
- The interleaving of asynchronous handlers: each handler runs to completion, so the raised "extracting" and "loading" flags are never visible to another handler (the invariant records them as down).
- The JSX render tree, including the `disabled` attributes of the buttons and the conditional display of the Clear and download buttons: the handlers do not check those conditions, and the model follows the handlers.
- The unmount clean-up effect (App.tsx:212-219), which stops playback and closes the audio context.
- The fallback messages for thrown values that are not `Error` objects ('Failed to read text.', the play handler's fallback): every thrown value is modelled by its message.
- AudioHelper.PcmWavFields: the byte rate and block align are exact integer products, whereas JavaScript computes them in double precision (exact below 2^53); non-integral sample rates and channel counts are not modelled.
- "The tags occur nowhere else in the header" is not stated: a numeric field can spell a tag (a sample rate of 0x46464952 writes "RIFF" at offset 24); what is stated is that `writeString` touches only its own four bytes and that each tag stands at its offset.
- AudioHelper.SetUint8, AudioHelper.SetUint16, AudioHelper.SetUint32, AudioHelper.WriteString and AudioHelper.CopyInto require the written range to lie in the buffer (a `RangeError` otherwise); the writer only writes in range.
- UTF-16 code units: a Dafny `char` is a Unicode scalar value, so it cannot hold a lone surrogate, and one `char` above U+FFFF stands for two JavaScript code units; lengths and positions agree with JavaScript only for text inside the Basic Multilingual Plane without lone surrogates (only the four ASCII tags and `atob` output reach `charCodeAt`).
- `app.py` and `check_model.py` (the Python Streamlit pages, with their credential lookup and other speech providers) and `ExtractedContent` in `types.ts` are not part of this model.
