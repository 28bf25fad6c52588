/** The WAV container writer used for the audio download, and the byte copy
    that turns a decoded base64 "binary string" into bytes. An `ArrayBuffer`
    seen through a `DataView` is an `array<byte>`; each `DataView` store is a
    method that changes exactly the bytes it covers. */
module AudioHelper {
  import opened Bytes
  import opened Types
  import opened Wav
  import opened Wrappers

  const DefaultSampleRate: int := 24000
  const DefaultNumChannels: int := 1
  const BytesPerSample: int := 2
  const WavMimeType: string := "audio/wav"

  /** The byte of each character, in order. */
  function CharBytes(s: string): (r: seq<byte>)
    ensures |r| == |s|
    ensures forall k :: 0 <= k < |s| ==> r[k] == CharByte(s[k])
  {
    seq(|s|, k requires 0 <= k < |s| => CharByte(s[k]))
  }

  /** The header `pcmToWavBlob` writes for `dataSize` bytes of 16-bit PCM: one
      PCM fmt chunk of 16 bytes, and the derived fields consistent with each
      other as the WAVE format requires. */
  function PcmHeader(dataSize: int, sampleRate: int, numChannels: int): (h: Header)
    ensures h.audioFormat == 1 && h.fmtSize == 16 && h.bitsPerSample == 16
    ensures h.dataSize == dataSize && h.riffSize == h.dataSize + 36
    ensures h.numChannels == numChannels && h.sampleRate == sampleRate
    ensures h.blockAlign == h.numChannels * (h.bitsPerSample / 8)
    ensures h.byteRate == h.sampleRate * h.blockAlign
  {
    var blockAlign := numChannels * BytesPerSample;
    Header(36 + dataSize, 16, 1, numChannels, sampleRate, sampleRate * blockAlign, blockAlign, 16, dataSize)
  }

  /** The full file `pcmToWavBlob` produces: that header, then the samples. */
  function PcmWavBytes(pcm: seq<byte>, sampleRate: int, numChannels: int): (w: seq<byte>)
    ensures |w| == HeaderSize + |pcm| && w[HeaderSize..] == pcm
  {
    Serialize(WavFile(PcmHeader(|pcm|, sampleRate, numChannels), pcm))
  }

  /** `DataView.setUint8(off, v)`. */
  method SetUint8(view: array<byte>, off: nat, v: int)
    requires off < view.Length
    modifies view
    ensures view[..] == old(view[..])[off := ToUint8(v)]
  {
    view[off] := ToUint8(v);
  }

  /** `DataView.setUint16(off, v, true)`. */
  method SetUint16(view: array<byte>, off: nat, v: int)
    requires off + 2 <= view.Length
    modifies view
    ensures view[..] == old(view[..])[..off] + Le16(v) + old(view[..])[off + 2..]
  {
    var bytes := Le16(v);
    view[off] := bytes[0];
    view[off + 1] := bytes[1];
  }

  /** `DataView.setUint32(off, v, true)`. */
  method SetUint32(view: array<byte>, off: nat, v: int)
    requires off + 4 <= view.Length
    modifies view
    ensures view[..] == old(view[..])[..off] + Le32(v) + old(view[..])[off + 4..]
  {
    var bytes := Le32(v);
    view[off] := bytes[0];
    view[off + 1] := bytes[1];
    view[off + 2] := bytes[2];
    view[off + 3] := bytes[3];
  }

  /** `writeString`: byte `offset + i` becomes the code of `s[i]`; no other
      byte changes. */
  method WriteString(view: array<byte>, offset: nat, s: string)
    requires offset + |s| <= view.Length
    modifies view
    ensures forall i :: 0 <= i < |s| ==> view[offset + i] == CharByte(s[i])
    ensures forall j :: 0 <= j < view.Length && !(offset <= j < offset + |s|) ==> view[j] == old(view[j])
    ensures view[..] == old(view[..])[..offset] + CharBytes(s) + old(view[..])[offset + |s|..]
  {
    for i := 0 to |s|
      invariant forall k :: 0 <= k < i ==> view[offset + k] == CharByte(s[k])
      invariant forall j :: 0 <= j < view.Length && !(offset <= j < offset + i) ==> view[j] == old(view[j])
    {
      SetUint8(view, offset + i, s[i] as int);
    }
    assert view[..] == old(view[..])[..offset] + CharBytes(s) + old(view[..])[offset + |s|..];
  }

  /** `dest.set(src)` on the byte view of `dest` starting at `off`. */
  method CopyInto(dest: array<byte>, off: nat, src: array<byte>)
    requires off + src.Length <= dest.Length && src != dest
    modifies dest
    ensures dest[..] == old(dest[..])[..off] + src[..] + old(dest[..])[off + src.Length..]
  {
    for i := 0 to src.Length
      invariant forall k :: 0 <= k < i ==> dest[off + k] == src[k]
      invariant forall j :: 0 <= j < dest.Length && !(off <= j < off + i) ==> dest[j] == old(dest[j])
    {
      dest[off + i] := src[i];
    }
    assert dest[..] == old(dest[..])[..off] + src[..] + old(dest[..])[off + src.Length..];
  }

  lemma TagBytes()
    ensures CharBytes("RIFF") == RiffId && CharBytes("WAVE") == WaveId
    ensures CharBytes("fmt ") == FmtId && CharBytes("data") == DataId
  {
  }

  /** `pcmToWavBlob`: a 44-byte header written field by field, then the
      samples; the result is exactly `PcmWavBytes`, typed "audio/wav". */
  method PcmToWavBlob(pcmData: array<byte>, sampleRate: int, numChannels: int) returns (blob: Blob)
    ensures blob == Blob(BytesPart(PcmWavBytes(pcmData[..], sampleRate, numChannels)), WavMimeType)
    ensures |blob.part.bytes| == HeaderSize + pcmData.Length
    ensures blob.part.bytes[HeaderSize..] == pcmData[..]
  {
    var blockAlign := numChannels * BytesPerSample;
    var byteRate := sampleRate * blockAlign;
    var dataSize := pcmData.Length;
    var view := new byte[HeaderSize + dataSize];
    ghost var h := PcmHeader(dataSize, sampleRate, numChannels);
    TagBytes();

    WriteString(view, RiffIdAt, "RIFF");
    assert view[..4] == RiffId;
    SetUint32(view, RiffSizeAt, 36 + dataSize);
    assert view[..8] == RiffId + Le32(h.riffSize);
    WriteString(view, WaveIdAt, "WAVE");
    assert view[..12] == RiffId + Le32(h.riffSize) + WaveId;
    WriteString(view, FmtIdAt, "fmt ");
    assert view[..16] == RiffId + Le32(h.riffSize) + WaveId + FmtId;
    SetUint32(view, FmtSizeAt, 16);
    assert view[..20] == RiffId + Le32(h.riffSize) + WaveId + FmtId + Le32(h.fmtSize);
    SetUint16(view, AudioFormatAt, 1);
    assert view[..22] == RiffId + Le32(h.riffSize) + WaveId + FmtId + Le32(h.fmtSize)
                         + Le16(h.audioFormat);
    SetUint16(view, NumChannelsAt, numChannels);
    assert view[..24] == RiffId + Le32(h.riffSize) + WaveId + FmtId + Le32(h.fmtSize)
                         + Le16(h.audioFormat) + Le16(h.numChannels);
    SetUint32(view, SampleRateAt, sampleRate);
    assert view[..28] == RiffId + Le32(h.riffSize) + WaveId + FmtId + Le32(h.fmtSize)
                         + Le16(h.audioFormat) + Le16(h.numChannels) + Le32(h.sampleRate);
    SetUint32(view, ByteRateAt, byteRate);
    assert view[..32] == RiffId + Le32(h.riffSize) + WaveId + FmtId + Le32(h.fmtSize)
                         + Le16(h.audioFormat) + Le16(h.numChannels) + Le32(h.sampleRate)
                         + Le32(h.byteRate);
    SetUint16(view, BlockAlignAt, blockAlign);
    assert view[..34] == RiffId + Le32(h.riffSize) + WaveId + FmtId + Le32(h.fmtSize)
                         + Le16(h.audioFormat) + Le16(h.numChannels) + Le32(h.sampleRate)
                         + Le32(h.byteRate) + Le16(h.blockAlign);
    SetUint16(view, BitsPerSampleAt, 16);
    assert view[..36] == RiffId + Le32(h.riffSize) + WaveId + FmtId + Le32(h.fmtSize)
                         + Le16(h.audioFormat) + Le16(h.numChannels) + Le32(h.sampleRate)
                         + Le32(h.byteRate) + Le16(h.blockAlign) + Le16(h.bitsPerSample);
    WriteString(view, DataIdAt, "data");
    assert view[..40] == RiffId + Le32(h.riffSize) + WaveId + FmtId + Le32(h.fmtSize)
                         + Le16(h.audioFormat) + Le16(h.numChannels) + Le32(h.sampleRate)
                         + Le32(h.byteRate) + Le16(h.blockAlign) + Le16(h.bitsPerSample) + DataId;
    SetUint32(view, DataSizeAt, dataSize);
    assert view[..HeaderSize] == HeaderBytes(h);

    CopyInto(view, HeaderSize, pcmData);
    assert view[..] == HeaderBytes(h) + pcmData[..];
    blob := Blob(BytesPart(view[..]), WavMimeType);
  }

  /** Every field of the written file read back: the chunk identifiers at
      their offsets, the fixed fmt values, the derived ones reduced to their
      width, and the samples from offset 44 on. */
  lemma {:induction false} PcmWavFields(pcm: seq<byte>, sampleRate: int, numChannels: int)
    ensures var w := PcmWavBytes(pcm, sampleRate, numChannels);
      && |w| == HeaderSize + |pcm|
      && w[RiffIdAt..RiffIdAt + 4] == RiffId && w[WaveIdAt..WaveIdAt + 4] == WaveId
      && w[FmtIdAt..FmtIdAt + 4] == FmtId && w[DataIdAt..DataIdAt + 4] == DataId
      && ReadLe32(w, RiffSizeAt) == (36 + |pcm|) % TWO_32
      && ReadLe32(w, FmtSizeAt) == 16
      && ReadLe16(w, AudioFormatAt) == 1
      && ReadLe16(w, NumChannelsAt) == numChannels % TWO_16
      && ReadLe32(w, SampleRateAt) == sampleRate % TWO_32
      && ReadLe32(w, ByteRateAt) == (sampleRate * numChannels * BytesPerSample) % TWO_32
      && ReadLe16(w, BlockAlignAt) == (numChannels * BytesPerSample) % TWO_16
      && ReadLe16(w, BitsPerSampleAt) == 16
      && ReadLe32(w, DataSizeAt) == |pcm| % TWO_32
      && w[HeaderSize..] == pcm
  {
    var h := PcmHeader(|pcm|, sampleRate, numChannels);
    var w := PcmWavBytes(pcm, sampleRate, numChannels);
    ParseSerialize(WavFile(h, pcm));
    HeaderLayout(h);
    assert w[..HeaderSize] == HeaderBytes(h);
    assert w[RiffIdAt..RiffIdAt + 4] == HeaderBytes(h)[RiffIdAt..RiffIdAt + 4];
    assert w[WaveIdAt..WaveIdAt + 4] == HeaderBytes(h)[WaveIdAt..WaveIdAt + 4];
    assert w[FmtIdAt..FmtIdAt + 4] == HeaderBytes(h)[FmtIdAt..FmtIdAt + 4];
    assert w[DataIdAt..DataIdAt + 4] == HeaderBytes(h)[DataIdAt..DataIdAt + 4];
    var t := Parse(w).value.header;
    assert t == Truncated(h);
    assert ReadLe32(w, RiffSizeAt) == t.riffSize && ReadLe32(w, FmtSizeAt) == t.fmtSize;
    assert ReadLe16(w, AudioFormatAt) == t.audioFormat && ReadLe16(w, NumChannelsAt) == t.numChannels;
    assert ReadLe32(w, SampleRateAt) == t.sampleRate && ReadLe32(w, ByteRateAt) == t.byteRate;
    assert ReadLe16(w, BlockAlignAt) == t.blockAlign && ReadLe16(w, BitsPerSampleAt) == t.bitsPerSample;
    assert ReadLe32(w, DataSizeAt) == t.dataSize;
    assert h.byteRate == sampleRate * numChannels * BytesPerSample;
  }

  /** Round trip: parsing the written file gives back the header the writer
      computed (each field reduced to its width) and exactly the samples. */
  lemma PcmWavParses(pcm: seq<byte>, sampleRate: int, numChannels: int)
    ensures Parse(PcmWavBytes(pcm, sampleRate, numChannels))
         == Some(WavFile(Truncated(PcmHeader(|pcm|, sampleRate, numChannels)), pcm))
  {
    ParseSerialize(WavFile(PcmHeader(|pcm|, sampleRate, numChannels), pcm));
  }

  lemma PcmWavLengthFields(pcm: seq<byte>, sampleRate: int, numChannels: int)
    ensures var w := PcmWavBytes(pcm, sampleRate, numChannels);
      && |w| == HeaderSize + |pcm|
      && ReadLe32(w, RiffSizeAt) == (36 + |pcm|) % TWO_32
      && ReadLe32(w, DataSizeAt) == |pcm| % TWO_32
  {
    ParseSerialize(WavFile(PcmHeader(|pcm|, sampleRate, numChannels), pcm));
  }

  /** While the RIFF size fits in 32 bits, both length fields are exact: the
      RIFF size is the file length less 8, the data size the sample count. */
  lemma PcmWavLengthsExact(pcm: seq<byte>, sampleRate: int, numChannels: int)
    requires 36 + |pcm| < TWO_32
    ensures var w := PcmWavBytes(pcm, sampleRate, numChannels);
      ReadLe32(w, RiffSizeAt) == |w| - 8 && ReadLe32(w, DataSizeAt) == |pcm|
  {
    var w := PcmWavBytes(pcm, sampleRate, numChannels);
    var riff, data := ReadLe32(w, RiffSizeAt), ReadLe32(w, DataSizeAt);
    PcmWavLengthFields(pcm, sampleRate, numChannels);
    FitsUint32(36 + |pcm|);
    FitsUint32(|pcm|);
  }

  /** With the defaults used for the download (24 kHz mono), the format is
      48000 bytes per second in 2-byte frames. */
  lemma DefaultFormat(pcm: seq<byte>)
    ensures var w := PcmWavBytes(pcm, DefaultSampleRate, DefaultNumChannels);
      && ReadLe16(w, NumChannelsAt) == 1 && ReadLe32(w, SampleRateAt) == 24000
      && ReadLe32(w, ByteRateAt) == 48000 && ReadLe16(w, BlockAlignAt) == 2
  {
    PcmWavFields(pcm, DefaultSampleRate, DefaultNumChannels);
  }

  /** `decodeBase64` after `atob`: one byte per character of the binary
      string, each the character's code reduced to a byte. */
  method DecodeBase64(binaryString: string) returns (bytes: array<byte>)
    ensures fresh(bytes)
    ensures bytes.Length == |binaryString|
    ensures forall i :: 0 <= i < bytes.Length ==> bytes[i] == CharByte(binaryString[i])
  {
    var len := |binaryString|;
    bytes := new byte[len];
    for i := 0 to len
      invariant forall k :: 0 <= k < i ==> bytes[k] == CharByte(binaryString[k])
    {
      bytes[i] := ToUint8(binaryString[i] as int);
    }
  }
}
