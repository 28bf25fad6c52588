/** The application's shared record and enumeration types. */
module Types {
  import opened Wrappers
  import opened Bytes

  /** The prebuilt voices offered for speech synthesis. */
  datatype VoiceName = Kore | Puck | Charon | Fenrir | Zephyr {
    /** The identifier sent to the speech service. */
    function Name(): string {
      match this
      case Kore => "Kore"
      case Puck => "Puck"
      case Charon => "Charon"
      case Fenrir => "Fenrir"
      case Zephyr => "Zephyr"
    }
  }

  /** `null` is `None`; an absent optional property is `None` too. */
  datatype AudioState = AudioState(isPlaying: bool, isLoading: bool, error: Option<string>)

  datatype OcrState = OcrState(
    isExtracting: bool,
    error: Option<string>,
    originalImage: Option<string>,  // the uploaded file as a data URL
    fileName: Option<string>)

  /** The content of a `Blob`: raw bytes, or a string (whose UTF-8 encoding
      the browser produces). */
  datatype BlobPart = BytesPart(bytes: seq<byte>) | TextPart(text: string)

  datatype Blob = Blob(part: BlobPart, mimeType: string)
}
