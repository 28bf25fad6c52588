/** The state and event handlers of the single-page application (rendering
    excluded). Each handler runs to completion before the next event, so the
    "extracting" and "loading" flags the handlers raise are lowered again
    before any other handler can see them. Foreign calls (the file reader,
    the generative-model client, `atob`, Web Audio, the clipboard, the clock)
    are parameters. */
module AppComponent {
  import opened Wrappers
  import opened Bytes
  import opened JsString
  import opened Types
  import opened GeminiService
  import AudioHelper

  const MaxSizeMb: int := 19
  const MaxFileSize: int := MaxSizeMb * 1024 * 1024
  const ImagePrefix: string := "image/"
  const PdfType: string := "application/pdf"
  const InvalidTypeMessage: string := "Please upload a valid image or PDF file."
  const TooLargeMessage: string := "File size exceeds 19MB limit."
  const TextMimeType: string := "text/plain"

  /** The selected file: its name, MIME type and size in bytes. */
  datatype File = File(name: string, mimeType: string, size: int)

  /** A download the page triggers: the suggested file name and the blob. */
  datatype Download = Download(fileName: string, blob: Blob)

  const InitialOcrState: OcrState := OcrState(false, None, None, None)
  const IdleAudioState: AudioState := AudioState(false, false, None)

  /** `file.type.startsWith('image/')`: case-sensitive. */
  predicate IsImage(mimeType: string) {
    StartsWith(mimeType, ImagePrefix)
  }

  /** `file.type === 'application/pdf'`: an exact match, parameters included. */
  predicate IsPdf(mimeType: string) {
    mimeType == PdfType
  }

  /** The upload checks, type first and then size: `None` accepts the file,
      otherwise the message shown. */
  function UploadRejection(file: File): (r: Option<string>)
    ensures r.None? <==> (IsImage(file.mimeType) || IsPdf(file.mimeType)) && file.size <= MaxFileSize
    ensures r.Some? ==> r.value == if IsImage(file.mimeType) || IsPdf(file.mimeType)
                                   then TooLargeMessage else InvalidTypeMessage
  {
    if !IsImage(file.mimeType) && !IsPdf(file.mimeType) then Some(InvalidTypeMessage)
    else if file.size > MaxFileSize then Some(TooLargeMessage)
    else None
  }

  /** The size limit is inclusive: 19 MiB exactly passes, one byte more fails. */
  lemma SizeLimitBoundary(name: string, mimeType: string)
    requires IsImage(mimeType) || IsPdf(mimeType)
    ensures UploadRejection(File(name, mimeType, 19_922_944)).None?
    ensures UploadRejection(File(name, mimeType, 19_922_945)) == Some(TooLargeMessage)
  {
  }

  /** The type test is a case-sensitive prefix test for images and an exact
      match for PDF; an unsupported type is reported whatever the size. */
  lemma TypeRule(name: string, size: int)
    ensures IsImage("image/png") && IsImage("image/") && !IsImage("image") && !IsImage("Image/png")
    ensures !IsPdf("application/pdf; charset=binary")
    ensures UploadRejection(File(name, "text/plain", size)) == Some(InvalidTypeMessage)
  {
    assert "Image/png"[0] != ImagePrefix[0];
  }

  class App {
    var ocrState: OcrState
    var fileType: string
    var extractedText: string
    var copied: bool
    var audioState: AudioState
    var selectedVoice: VoiceName
    /** `audioSourceRef.current !== null`: a playback node is running. */
    var audioSourceActive: bool
    /** `rawAudioBytesRef.current`: the last synthesised PCM, kept for download. */
    var rawAudioBytes: array?<byte>

    /** What holds between events: a playback node runs exactly while the
        state says "playing", and playing implies audio bytes and no error;
        the transient flags are down. */
    predicate Valid()
      reads this
    {
      && audioSourceActive == audioState.isPlaying
      && (audioState.isPlaying ==> rawAudioBytes != null && audioState.error.None?)
      && !audioState.isLoading
      && !ocrState.isExtracting
    }

    constructor ()
      ensures Valid()
      ensures ocrState == InitialOcrState && fileType == "" && extractedText == "" && !copied
      ensures audioState == IdleAudioState && selectedVoice == Kore
      ensures !audioSourceActive && rawAudioBytes == null
    {
      ocrState := InitialOcrState;
      fileType := "";
      extractedText := "";
      copied := false;
      audioState := IdleAudioState;
      selectedVoice := Kore;
      audioSourceActive := false;
      rawAudioBytes := null;
    }

    /** `stopAudio`: stops and forgets the playback node, and lowers
        "playing"; nothing else changes. */
    method StopAudio()
      modifies this
      ensures !audioSourceActive && audioState == old(audioState).(isPlaying := false)
      ensures ocrState == old(ocrState) && fileType == old(fileType) && extractedText == old(extractedText)
      ensures copied == old(copied) && selectedVoice == old(selectedVoice) && rawAudioBytes == old(rawAudioBytes)
      ensures old(Valid()) ==> Valid()
    {
      audioSourceActive := false;
      audioState := audioState.(isPlaying := false);
    }

    /** The file reader's `onload`: records the data URL and file name, runs
        extraction, then stores the text or the error message. */
    method OnFileRead(file: File, dataUrl: string, generate: OcrRequest -> ApiOutcome<OcrResponse>)
      returns (sent: OcrRequest)
      modifies this
      ensures sent == OcrRequest(OcrModel, file.mimeType, StripDataUrlPrefix(dataUrl))
      ensures var result := ExtractTextFromImage(dataUrl, file.mimeType, generate);
        && ocrState == OcrState(false, if result.Success? then None else Some(result.error),
                                Some(dataUrl), Some(file.name))
        && extractedText == if result.Success? then result.value else old(extractedText)
      ensures fileType == old(fileType) && copied == old(copied) && audioState == old(audioState)
      ensures selectedVoice == old(selectedVoice) && audioSourceActive == old(audioSourceActive)
      ensures rawAudioBytes == old(rawAudioBytes)
      ensures old(Valid()) ==> Valid()
    {
      ocrState := OcrState(true, None, Some(dataUrl), Some(file.name));
      sent := OcrRequestFor(dataUrl, file.mimeType);
      var result := ExtractTextFromImage(dataUrl, file.mimeType, generate);
      if result.Success? {
        extractedText := result.value;
        ocrState := ocrState.(isExtracting := false);
      } else {
        ocrState := ocrState.(isExtracting := false, error := Some(result.error));
      }
    }

    /** `handleFileUpload`, run to completion: `file` is the selected file if
        any, `dataUrl` what the file reader delivered (`None` if it never
        fired `onload`). A rejected file changes only the OCR error; an
        accepted one first resets text, audio state, stored audio and file
        type, then, once read, is sent for extraction. */
    method HandleFileUpload(file: Option<File>, dataUrl: Option<string>,
                            generate: OcrRequest -> ApiOutcome<OcrResponse>)
      returns (sent: Option<OcrRequest>)
      requires Valid()
      modifies this
      ensures Valid()
      ensures file.None? ==> sent.None? && unchanged(this)
      ensures file.Some? && UploadRejection(file.value).Some? ==>
        && sent.None?
        && ocrState == old(ocrState).(error := UploadRejection(file.value))
        && extractedText == old(extractedText) && audioState == old(audioState)
        && fileType == old(fileType) && rawAudioBytes == old(rawAudioBytes)
        && audioSourceActive == old(audioSourceActive)
        && copied == old(copied) && selectedVoice == old(selectedVoice)
      ensures file.Some? && UploadRejection(file.value).None? ==>
        && audioState == IdleAudioState && !audioSourceActive && rawAudioBytes == null
        && fileType == file.value.mimeType
        && copied == old(copied) && selectedVoice == old(selectedVoice)
        && (dataUrl.None? ==> sent.None? && extractedText == "" && ocrState == old(ocrState))
        && (dataUrl.Some? ==>
              var result := ExtractTextFromImage(dataUrl.value, file.value.mimeType, generate);
              && sent == Some(OcrRequest(OcrModel, file.value.mimeType, StripDataUrlPrefix(dataUrl.value)))
              && extractedText == (if result.Success? then result.value else "")
              && ocrState == OcrState(false, if result.Success? then None else Some(OcrFailureMessage),
                                      Some(dataUrl.value), Some(file.value.name)))
    {
      sent := None;
      if file.None? {
        return;
      }
      var f := file.value;
      var isImage := IsImage(f.mimeType);
      var isPdf := IsPdf(f.mimeType);
      if !isImage && !isPdf {
        ocrState := ocrState.(error := Some(InvalidTypeMessage));
        return;
      }
      if f.size > MaxFileSize {
        ocrState := ocrState.(error := Some(TooLargeMessage));
        return;
      }
      extractedText := "";
      audioState := IdleAudioState;
      StopAudio();
      rawAudioBytes := null;
      fileType := f.mimeType;
      if dataUrl.Some? {
        var request := OnFileRead(f, dataUrl.value, generate);
        sent := Some(request);
      }
    }

    /** `handleTextChange`: the edited text replaces the old one wholesale. */
    method HandleTextChange(value: string)
      requires Valid()
      modifies this
      ensures Valid()
      ensures extractedText == value
      ensures ocrState == old(ocrState) && fileType == old(fileType) && copied == old(copied)
      ensures audioState == old(audioState) && selectedVoice == old(selectedVoice)
      ensures audioSourceActive == old(audioSourceActive) && rawAudioBytes == old(rawAudioBytes)
    {
      extractedText := value;
    }

    /** The voice selector's `onChange`. */
    method HandleVoiceChange(voice: VoiceName)
      requires Valid()
      modifies this
      ensures Valid()
      ensures selectedVoice == voice
      ensures ocrState == old(ocrState) && fileType == old(fileType) && copied == old(copied)
      ensures audioState == old(audioState) && extractedText == old(extractedText)
      ensures audioSourceActive == old(audioSourceActive) && rawAudioBytes == old(rawAudioBytes)
    {
      selectedVoice := voice;
    }

    /** `handlePlayAudio`, run to completion. With blank text it does nothing;
        while playing it only stops; otherwise it synthesises and plays. */
    method HandlePlayAudio(generate: SpeechRequest -> ApiOutcome<SpeechResponse>,
                           atob: string -> Result<string, string>,
                           playback: seq<byte> -> Option<string>)
      returns (sent: Option<SpeechRequest>)
      requires Valid()
      modifies this
      ensures Valid()
      ensures ocrState == old(ocrState) && fileType == old(fileType) && copied == old(copied)
      ensures extractedText == old(extractedText) && selectedVoice == old(selectedVoice)
      ensures Trim(old(extractedText)) == "" ==> sent.None? && unchanged(this)
      ensures Trim(old(extractedText)) != "" && old(audioState.isPlaying) ==>
        && sent.None?
        && audioState == old(audioState).(isPlaying := false) && !audioSourceActive
        && rawAudioBytes == old(rawAudioBytes)
      ensures Trim(old(extractedText)) != "" && !old(audioState.isPlaying) ==>
        Played(generate, atob, playback, old(rawAudioBytes)) && sent == Some(SpeechRequestFor(extractedText, selectedVoice))
    {
      sent := None;
      if Trim(extractedText) == "" {
        return;
      }
      if audioState.isPlaying {
        StopAudio();
        return;
      }
      var request := SynthesizeAndPlay(generate, atob, playback);
      sent := Some(request);
    }

    /** The outcome of a synthesis-and-playback attempt for the current text
        and voice, given the bytes stored before it. */
    ghost predicate Played(generate: SpeechRequest -> ApiOutcome<SpeechResponse>,
                           atob: string -> Result<string, string>,
                           playback: seq<byte> -> Option<string>, before: array?<byte>)
      reads this, rawAudioBytes
    {
      var speech := GenerateSpeech(extractedText, selectedVoice, generate);
      && (speech.Failure? ==>
            audioState == AudioState(false, false, Some(TtsFailureMessage))
            && rawAudioBytes == before && !audioSourceActive)
      && (speech.Success? && atob(speech.value).Failure? ==>
            audioState == AudioState(false, false, Some(atob(speech.value).error))
            && rawAudioBytes == before && !audioSourceActive)
      && (speech.Success? && atob(speech.value).Success? ==>
            && rawAudioBytes != null
            && rawAudioBytes[..] == AudioHelper.CharBytes(atob(speech.value).value)
            && var failure := playback(rawAudioBytes[..]);
            && audioState == (if failure.Some? then AudioState(false, false, failure)
                              else AudioState(true, false, None))
            && audioSourceActive == failure.None?)
    }

    /** The body of `handlePlayAudio` past its two guards: raise "loading",
        request speech for the (untrimmed) text, decode it with `atob` (the
        browser's base64 decoder; a thrown error is its message), store the
        bytes, and start playback; `playback` is the error, if any, that
        decoding the PCM into an audio buffer or starting it throws. */
    method SynthesizeAndPlay(generate: SpeechRequest -> ApiOutcome<SpeechResponse>,
                             atob: string -> Result<string, string>,
                             playback: seq<byte> -> Option<string>)
      returns (sent: SpeechRequest)
      requires Valid() && !audioState.isPlaying
      modifies this
      ensures Valid()
      ensures sent == SpeechRequestFor(extractedText, selectedVoice)
      ensures ocrState == old(ocrState) && fileType == old(fileType) && copied == old(copied)
      ensures extractedText == old(extractedText) && selectedVoice == old(selectedVoice)
      ensures Played(generate, atob, playback, old(rawAudioBytes))
      ensures rawAudioBytes != old(rawAudioBytes) ==> fresh(rawAudioBytes)
    {
      audioState := AudioState(false, true, None);
      sent := SpeechRequestFor(extractedText, selectedVoice);
      var speech := GenerateSpeech(extractedText, selectedVoice, generate);
      if speech.Failure? {
        audioState := AudioState(false, false, Some(speech.error));
        return;
      }
      var binary := atob(speech.value);
      if binary.Failure? {
        audioState := AudioState(false, false, Some(binary.error));
        return;
      }
      var bytes := AudioHelper.DecodeBase64(binary.value);
      assert bytes[..] == AudioHelper.CharBytes(binary.value);
      rawAudioBytes := bytes;
      var failure := playback(bytes[..]);
      if failure.Some? {
        audioState := AudioState(false, false, failure);
        return;
      }
      audioState := AudioState(true, false, None);
      audioSourceActive := true;
    }

    /** The playback node's `ended` listener. */
    method OnPlaybackEnded()
      requires Valid()
      modifies this
      ensures Valid()
      ensures audioState == old(audioState).(isPlaying := false) && !audioSourceActive
      ensures ocrState == old(ocrState) && fileType == old(fileType) && copied == old(copied)
      ensures extractedText == old(extractedText) && selectedVoice == old(selectedVoice)
      ensures rawAudioBytes == old(rawAudioBytes)
    {
      audioState := audioState.(isPlaying := false);
      audioSourceActive := false;
    }

    /** `handleDownloadAudio` at time `now` (`Date.now()`): nothing without
        stored audio; otherwise a WAV file of the stored bytes at 24 kHz mono. */
    method HandleDownloadAudio(now: nat) returns (download: Option<Download>)
      ensures download.None? <==> rawAudioBytes == null
      ensures rawAudioBytes != null ==>
        download == Some(Download("visionvoice-" + NatToString(now) + ".wav",
          Blob(BytesPart(AudioHelper.PcmWavBytes(rawAudioBytes[..], AudioHelper.DefaultSampleRate,
                                                 AudioHelper.DefaultNumChannels)),
               AudioHelper.WavMimeType)))
    {
      if rawAudioBytes == null {
        return None;
      }
      var blob := AudioHelper.PcmToWavBlob(rawAudioBytes, AudioHelper.DefaultSampleRate,
                                           AudioHelper.DefaultNumChannels);
      download := Some(Download("visionvoice-" + NatToString(now) + ".wav", blob));
    }

    /** `handleCopyText`: nothing for empty text; otherwise the text goes to
        the clipboard and, if the write succeeded, "copied" is raised. */
    method HandleCopyText(clipboardAccepts: bool) returns (written: Option<string>)
      requires Valid()
      modifies this
      ensures Valid()
      ensures old(extractedText) == "" ==> written.None? && unchanged(this)
      ensures old(extractedText) != "" ==>
        written == Some(extractedText) && copied == (clipboardAccepts || old(copied))
      ensures ocrState == old(ocrState) && fileType == old(fileType) && extractedText == old(extractedText)
      ensures audioState == old(audioState) && selectedVoice == old(selectedVoice)
      ensures audioSourceActive == old(audioSourceActive) && rawAudioBytes == old(rawAudioBytes)
    {
      if extractedText == "" {
        return None;
      }
      written := Some(extractedText);
      if clipboardAccepts {
        copied := true;
      }
    }

    /** The timer `handleCopyText` sets, which lowers "copied" again. */
    method OnCopiedTimeout()
      requires Valid()
      modifies this
      ensures Valid()
      ensures !copied
      ensures ocrState == old(ocrState) && fileType == old(fileType) && extractedText == old(extractedText)
      ensures audioState == old(audioState) && selectedVoice == old(selectedVoice)
      ensures audioSourceActive == old(audioSourceActive) && rawAudioBytes == old(rawAudioBytes)
    {
      copied := false;
    }

    /** `handleDownloadText` at time `now`: nothing for empty text;
        otherwise a plain-text file of it. */
    method HandleDownloadText(now: nat) returns (download: Option<Download>)
      ensures download.None? <==> extractedText == ""
      ensures extractedText != "" ==>
        download == Some(Download("extracted-text-" + NatToString(now) + ".txt",
                                  Blob(TextPart(extractedText), TextMimeType)))
    {
      if extractedText == "" {
        return None;
      }
      download := Some(Download("extracted-text-" + NatToString(now) + ".txt",
                                Blob(TextPart(extractedText), TextMimeType)));
    }

    /** The "Clear" button: OCR state back to its initial value, text and file
        type emptied, playback stopped, stored audio dropped. The audio error
        and the voice are kept. */
    method HandleClear()
      requires Valid()
      modifies this
      ensures Valid()
      ensures ocrState == InitialOcrState && extractedText == "" && fileType == ""
      ensures rawAudioBytes == null && !audioSourceActive
      ensures audioState == old(audioState).(isPlaying := false)
      ensures copied == old(copied) && selectedVoice == old(selectedVoice)
    {
      ocrState := InitialOcrState;
      extractedText := "";
      fileType := "";
      StopAudio();
      rawAudioBytes := null;
    }
  }
}
