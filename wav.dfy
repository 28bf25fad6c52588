/** The canonical 44-byte RIFF/WAVE header for PCM audio: a "RIFF" chunk of
    form type "WAVE" holding a 16-byte "fmt " chunk and a "data" chunk, as laid
    out in the Microsoft/IBM Multimedia Programming Interface and Data
    Specifications 1.0. All integer fields are little-endian. */
module Wav {
  import opened Wrappers
  import opened Bytes

  /** The four-character codes, as ASCII bytes. */
  const RiffId: seq<byte> := [0x52, 0x49, 0x46, 0x46]   // "RIFF"
  const WaveId: seq<byte> := [0x57, 0x41, 0x56, 0x45]   // "WAVE"
  const FmtId: seq<byte> := [0x66, 0x6D, 0x74, 0x20]    // "fmt "
  const DataId: seq<byte> := [0x64, 0x61, 0x74, 0x61]   // "data"

  const HeaderSize: nat := 44

  /** Byte offsets of the header fields. */
  const RiffIdAt: nat := 0
  const RiffSizeAt: nat := 4
  const WaveIdAt: nat := 8
  const FmtIdAt: nat := 12
  const FmtSizeAt: nat := 16
  const AudioFormatAt: nat := 20
  const NumChannelsAt: nat := 22
  const SampleRateAt: nat := 24
  const ByteRateAt: nat := 28
  const BlockAlignAt: nat := 32
  const BitsPerSampleAt: nat := 34
  const DataIdAt: nat := 36
  const DataSizeAt: nat := 40

  /** The numeric fields of the header. A writer may hand in any integer; the
      bytes hold it reduced to the field's width. */
  datatype Header = Header(
    riffSize: int,       // u32: bytes after this field, i.e. file length - 8
    fmtSize: int,        // u32: length of the "fmt " body
    audioFormat: int,    // u16: 1 is linear PCM
    numChannels: int,    // u16
    sampleRate: int,     // u32
    byteRate: int,       // u32: sampleRate * blockAlign
    blockAlign: int,     // u16: numChannels * bytes per sample
    bitsPerSample: int,  // u16
    dataSize: int)       // u32: length of the sample data

  /** A parsed file: its header and the sample bytes after it. */
  datatype WavFile = WavFile(header: Header, samples: seq<byte>)

  /** Every field fits its width, as any header read from bytes does. */
  predicate InRange(h: Header) {
    && 0 <= h.riffSize < TWO_32 && 0 <= h.fmtSize < TWO_32
    && 0 <= h.audioFormat < TWO_16 && 0 <= h.numChannels < TWO_16
    && 0 <= h.sampleRate < TWO_32 && 0 <= h.byteRate < TWO_32
    && 0 <= h.blockAlign < TWO_16 && 0 <= h.bitsPerSample < TWO_16
    && 0 <= h.dataSize < TWO_32
  }

  /** Each field reduced to its width, which is what its bytes can carry. */
  function Truncated(h: Header): (t: Header)
    ensures InRange(t)
  {
    Header(h.riffSize % TWO_32, h.fmtSize % TWO_32, h.audioFormat % TWO_16,
           h.numChannels % TWO_16, h.sampleRate % TWO_32, h.byteRate % TWO_32,
           h.blockAlign % TWO_16, h.bitsPerSample % TWO_16, h.dataSize % TWO_32)
  }

  /** The 44 header bytes, chunk by chunk. */
  function HeaderBytes(h: Header): (r: seq<byte>)
    ensures |r| == HeaderSize
  {
    RiffId + Le32(h.riffSize) + WaveId
    + FmtId + Le32(h.fmtSize) + Le16(h.audioFormat) + Le16(h.numChannels)
    + Le32(h.sampleRate) + Le32(h.byteRate) + Le16(h.blockAlign) + Le16(h.bitsPerSample)
    + DataId + Le32(h.dataSize)
  }

  function Serialize(f: WavFile): (r: seq<byte>)
    ensures |r| == HeaderSize + |f.samples|
  {
    HeaderBytes(f.header) + f.samples
  }

  /** Reads a canonical 44-byte-header WAVE file: the four chunk identifiers
      must stand at their offsets; everything after the header is sample data. */
  function Parse(s: seq<byte>): (r: Option<WavFile>)
    ensures r.Some? ==> InRange(r.value.header) && |s| == HeaderSize + |r.value.samples|
    ensures r.Some? ==> r.value.samples == s[HeaderSize..]
  {
    if |s| < HeaderSize then None
    else if s[RiffIdAt..RiffIdAt + 4] != RiffId || s[WaveIdAt..WaveIdAt + 4] != WaveId
         || s[FmtIdAt..FmtIdAt + 4] != FmtId || s[DataIdAt..DataIdAt + 4] != DataId then None
    else
      ReadLe32Range(s, RiffSizeAt); ReadLe32Range(s, FmtSizeAt);
      ReadLe16Range(s, AudioFormatAt); ReadLe16Range(s, NumChannelsAt);
      ReadLe32Range(s, SampleRateAt); ReadLe32Range(s, ByteRateAt);
      ReadLe16Range(s, BlockAlignAt); ReadLe16Range(s, BitsPerSampleAt);
      ReadLe32Range(s, DataSizeAt);
      Some(WavFile(
        Header(ReadLe32(s, RiffSizeAt), ReadLe32(s, FmtSizeAt), ReadLe16(s, AudioFormatAt),
               ReadLe16(s, NumChannelsAt), ReadLe32(s, SampleRateAt), ReadLe32(s, ByteRateAt),
               ReadLe16(s, BlockAlignAt), ReadLe16(s, BitsPerSampleAt), ReadLe32(s, DataSizeAt)),
        s[HeaderSize..]))
  }

  /** Where each piece of `HeaderBytes` lands. */
  lemma HeaderLayout(h: Header)
    ensures var b := HeaderBytes(h);
      && b[RiffIdAt..RiffIdAt + 4] == RiffId
      && b[RiffSizeAt..RiffSizeAt + 4] == Le32(h.riffSize)
      && b[WaveIdAt..WaveIdAt + 4] == WaveId
      && b[FmtIdAt..FmtIdAt + 4] == FmtId
      && b[FmtSizeAt..FmtSizeAt + 4] == Le32(h.fmtSize)
      && b[AudioFormatAt..AudioFormatAt + 2] == Le16(h.audioFormat)
      && b[NumChannelsAt..NumChannelsAt + 2] == Le16(h.numChannels)
      && b[SampleRateAt..SampleRateAt + 4] == Le32(h.sampleRate)
      && b[ByteRateAt..ByteRateAt + 4] == Le32(h.byteRate)
      && b[BlockAlignAt..BlockAlignAt + 2] == Le16(h.blockAlign)
      && b[BitsPerSampleAt..BitsPerSampleAt + 2] == Le16(h.bitsPerSample)
      && b[DataIdAt..DataIdAt + 4] == DataId
      && b[DataSizeAt..DataSizeAt + 4] == Le32(h.dataSize)
  {
    var p1 := RiffId + Le32(h.riffSize) + WaveId + FmtId;
    var p2 := p1 + Le32(h.fmtSize) + Le16(h.audioFormat) + Le16(h.numChannels);
    var p3 := p2 + Le32(h.sampleRate) + Le32(h.byteRate) + Le16(h.blockAlign);
    var p4 := p3 + Le16(h.bitsPerSample) + DataId;
    var b := HeaderBytes(h);
    assert b == p4 + Le32(h.dataSize);
    assert b[..36 + 4] == p4;
    assert p4[..34] == p3 && p3[..24] == p2 && p2[..16] == p1;
    assert b[..16] == p1 && b[..24] == p2 && b[..34] == p3;
  }

  /** Serialise, then parse: the header comes back with each field reduced to
      its width, and the samples come back unchanged. */
  lemma {:induction false} ParseSerialize(f: WavFile)
    ensures Parse(Serialize(f)) == Some(WavFile(Truncated(f.header), f.samples))
  {
    var h, s := f.header, Serialize(f);
    var b := HeaderBytes(h);
    HeaderLayout(h);
    assert s[..HeaderSize] == b;
    assert s[HeaderSize..] == f.samples;
    forall off: nat | off + 4 <= HeaderSize ensures ReadLe32(s, off) == ReadLe32(b[off..off + 4], 0) { }
    forall off: nat | off + 2 <= HeaderSize ensures ReadLe16(s, off) == ReadLe16(b[off..off + 2], 0) { }
    ReadLe32OfLe32(h.riffSize); ReadLe32OfLe32(h.fmtSize);
    ReadLe16OfLe16(h.audioFormat); ReadLe16OfLe16(h.numChannels);
    ReadLe32OfLe32(h.sampleRate); ReadLe32OfLe32(h.byteRate);
    ReadLe16OfLe16(h.blockAlign); ReadLe16OfLe16(h.bitsPerSample);
    ReadLe32OfLe32(h.dataSize);
  }

  /** Parse, then serialise: whatever parses is reproduced byte for byte. */
  lemma {:induction false} SerializeParse(s: seq<byte>)
    requires Parse(s).Some?
    ensures Serialize(Parse(s).value) == s
  {
    var f := Parse(s).value;
    var h := f.header;
    HeaderLayout(h);
    Le32OfReadLe32(s, RiffSizeAt); Le32OfReadLe32(s, FmtSizeAt);
    Le16OfReadLe16(s, AudioFormatAt); Le16OfReadLe16(s, NumChannelsAt);
    Le32OfReadLe32(s, SampleRateAt); Le32OfReadLe32(s, ByteRateAt);
    Le16OfReadLe16(s, BlockAlignAt); Le16OfReadLe16(s, BitsPerSampleAt);
    Le32OfReadLe32(s, DataSizeAt);
    var b := HeaderBytes(h);
    forall i | 0 <= i < HeaderSize ensures b[i] == s[i] {
      if i < 4 { assert b[i] == b[RiffIdAt..RiffIdAt + 4][i]; }
      else if i < 8 { assert b[i] == b[RiffSizeAt..RiffSizeAt + 4][i - 4]; }
      else if i < 12 { assert b[i] == b[WaveIdAt..WaveIdAt + 4][i - 8]; }
      else if i < 16 { assert b[i] == b[FmtIdAt..FmtIdAt + 4][i - 12]; }
      else if i < 20 { assert b[i] == b[FmtSizeAt..FmtSizeAt + 4][i - 16]; }
      else if i < 22 { assert b[i] == b[AudioFormatAt..AudioFormatAt + 2][i - 20]; }
      else if i < 24 { assert b[i] == b[NumChannelsAt..NumChannelsAt + 2][i - 22]; }
      else if i < 28 { assert b[i] == b[SampleRateAt..SampleRateAt + 4][i - 24]; }
      else if i < 32 { assert b[i] == b[ByteRateAt..ByteRateAt + 4][i - 28]; }
      else if i < 34 { assert b[i] == b[BlockAlignAt..BlockAlignAt + 2][i - 32]; }
      else if i < 36 { assert b[i] == b[BitsPerSampleAt..BitsPerSampleAt + 2][i - 34]; }
      else if i < 40 { assert b[i] == b[DataIdAt..DataIdAt + 4][i - 36]; }
      else { assert b[i] == b[DataSizeAt..DataSizeAt + 4][i - 40]; }
    }
    assert b == s[..HeaderSize];
    assert s == s[..HeaderSize] + s[HeaderSize..];
  }
}
