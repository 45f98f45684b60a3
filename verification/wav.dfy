/** `writeWavPCM16` of tools/generate_sfx.mjs as a function from samples to
    the bytes it writes: a 44-byte RIFF/WAVE header (mono, 16-bit PCM,
    44100 Hz) followed by one little-endian signed 16-bit value per sample,
    laid out as in the "Waveform Audio File Format" chapter of the
    Microsoft/IBM Multimedia Programming Interface and Data Specifications
    1.0. Writing the file is not modelled. */
module Wav {
  import opened Base

  type Byte = b: int | 0 <= b < 256

  const SampleRate: int := 44100
  const Channels: int := 1
  const BitsPerSample: int := 16
  const BlockAlign: int := 2
  const ByteRate: int := SampleRate * 2
  /** `WAVE_FORMAT_PCM`. */
  const FormatPcm: int := 1
  /** Size of the 'fmt ' chunk body for PCM. */
  const FmtSize: int := 16
  const HeaderSize: int := 44
  const MaxU32: int := 0xFFFF_FFFF
  /** Full-scale sample value. */
  const FullScale: int := 32767

  /** `writeUInt32LE` rejects a value outside 32 bits with a RangeError. */
  datatype WavError = FieldOutOfRange

  // ---------------------------------------------------------------------
  // Little-endian fields

  /** The unsigned 16-bit value stored at b[i], b[i+1]. */
  function U16At(b: seq<Byte>, i: int): int
    requires 0 <= i && i + 2 <= |b|
  {
    b[i] as int + 256 * (b[i + 1] as int)
  }

  /** The unsigned 32-bit value stored at b[i..i+4]. */
  function U32At(b: seq<Byte>, i: int): int
    requires 0 <= i && i + 4 <= |b|
  {
    U16At(b, i) + 65536 * U16At(b, i + 2)
  }

  /** The signed (two's complement) 16-bit value stored at b[i], b[i+1]. */
  function I16At(b: seq<Byte>, i: int): int
    requires 0 <= i && i + 2 <= |b|
  {
    var u := U16At(b, i);
    if u >= 32768 then u - 65536 else u
  }

  /** `writeUInt16LE(v)`. */
  function LE16(v: int): (r: seq<Byte>)
    requires 0 <= v < 0x1_0000
    ensures |r| == 2 && U16At(r, 0) == v
  {
    [v % 256, v / 256]
  }

  /** `writeUInt32LE(v)`. */
  function LE32(v: int): (r: seq<Byte>)
    requires 0 <= v <= MaxU32
    ensures |r| == 4 && U32At(r, 0) == v
  {
    var lo, hi := LE16(v % 0x1_0000), LE16(v / 0x1_0000);
    assert U16At(lo + hi, 0) == U16At(lo, 0) && U16At(lo + hi, 2) == U16At(hi, 0);
    lo + hi
  }

  /** `writeInt16LE(v)`: two's complement. */
  function I16LE(v: int): (r: seq<Byte>)
    requires -32768 <= v < 32768
    ensures |r| == 2 && I16At(r, 0) == v
  {
    LE16(if v < 0 then v + 0x1_0000 else v)
  }

  /** `buffer.write(s)` for an ASCII tag. */
  function Ascii(s: string): (r: seq<Byte>)
    requires forall k :: 0 <= k < |s| ==> s[k] as int < 128
    ensures |r| == |s| && forall k :: 0 <= k < |s| ==> r[k] == s[k] as int
  {
    seq(|s|, k requires 0 <= k < |s| => s[k] as int)
  }

  // ---------------------------------------------------------------------
  // Samples

  /** `(Math.max(-1, Math.min(1, s)) * 32767) | 0`: clamp to [-1, 1], scale,
      and truncate toward zero. */
  function Quantise(s: real): (q: int)
    ensures -FullScale <= q <= FullScale
    ensures s >= 1.0 ==> q == FullScale
    ensures s <= -1.0 ==> q == -FullScale
    ensures 0.0 <= s < 1.0 ==> q as real <= s * FullScale as real < q as real + 1.0
    ensures -1.0 < s < 0.0 ==> q as real - 1.0 < s * FullScale as real <= q as real
  {
    var c := MaxReal(-1.0, MinReal(1.0, s));
    Trunc(c * FullScale as real)
  }

  /** The data chunk: each sample's 16-bit value, in order. */
  function EncodeSamples(ss: seq<real>): (r: seq<Byte>)
    ensures |r| == 2 * |ss|
    ensures forall i :: 0 <= i < |ss| ==> I16At(r, 2 * i) == Quantise(ss[i])
  {
    if |ss| == 0 then []
    else
      var n := |ss|;
      var prior := EncodeSamples(ss[..n - 1]);
      var last := I16LE(Quantise(ss[n - 1]));
      var r := prior + last;
      assert forall i :: 0 <= i < n - 1 ==> I16At(r, 2 * i) == I16At(prior, 2 * i);
      assert I16At(r, 2 * (n - 1)) == I16At(last, 0);
      r
  }

  // ---------------------------------------------------------------------
  // The whole file

  /** Byte count of the data chunk for n samples. */
  function DataSize(n: nat): int
  {
    n * BlockAlign
  }

  /** The 44-byte header for a data chunk of `dataSize` bytes. */
  function Header(dataSize: int): (h: seq<Byte>)
    requires 0 <= dataSize && 36 + dataSize <= MaxU32
    ensures |h| == HeaderSize
  {
    Ascii("RIFF") + LE32(36 + dataSize) + Ascii("WAVE")
      + Ascii("fmt ") + LE32(FmtSize) + LE16(FormatPcm) + LE16(Channels)
      + LE32(SampleRate) + LE32(ByteRate) + LE16(BlockAlign) + LE16(BitsPerSample)
      + Ascii("data") + LE32(dataSize)
  }

  /** The fields of the header, read back at their offsets. */
  predicate HeaderFields(b: seq<Byte>, dataSize: int)
    requires |b| >= HeaderSize
  {
    && b[0..4] == Ascii("RIFF") && U32At(b, 4) == 36 + dataSize
    && b[8..12] == Ascii("WAVE") && b[12..16] == Ascii("fmt ")
    && U32At(b, 16) == FmtSize && U16At(b, 20) == FormatPcm && U16At(b, 22) == Channels
    && U32At(b, 24) == SampleRate && U32At(b, 28) == SampleRate * BlockAlign
    && U16At(b, 32) == BlockAlign && U16At(b, 34) == BitsPerSample
    && b[36..40] == Ascii("data") && U32At(b, 40) == dataSize
  }

  /** Reading a field of a slice equals reading it in place. */
  lemma U32Slice(b: seq<Byte>, i: int)
    requires 0 <= i && i + 4 <= |b|
    ensures U32At(b, i) == U32At(b[i..i + 4], 0)
  {
  }

  lemma U16Slice(b: seq<Byte>, i: int)
    requires 0 <= i && i + 2 <= |b|
    ensures U16At(b, i) == U16At(b[i..i + 2], 0)
  {
  }

  /** Every header field reads back as written. */
  lemma HeaderReadsBack(dataSize: int, rest: seq<Byte>)
    requires 0 <= dataSize && 36 + dataSize <= MaxU32
    ensures HeaderFields(Header(dataSize) + rest, dataSize)
  {
    var b := Header(dataSize) + rest;
    assert b[4..8] == LE32(36 + dataSize);
    U32Slice(b, 4);
    assert b[16..20] == LE32(FmtSize);
    U32Slice(b, 16);
    assert b[20..22] == LE16(FormatPcm);
    U16Slice(b, 20);
    assert b[22..24] == LE16(Channels);
    U16Slice(b, 22);
    assert b[24..28] == LE32(SampleRate);
    U32Slice(b, 24);
    assert b[28..32] == LE32(ByteRate);
    U32Slice(b, 28);
    assert b[32..34] == LE16(BlockAlign);
    U16Slice(b, 32);
    assert b[34..36] == LE16(BitsPerSample);
    U16Slice(b, 34);
    assert b[40..44] == LE32(dataSize);
    U32Slice(b, 40);
  }

  /** `writeWavPCM16(filename, samples)`: the bytes written, or the RangeError
      `writeUInt32LE` raises when the RIFF size does not fit in 32 bits. */
  function EncodeWav(samples: seq<real>): (r: Result<seq<Byte>, WavError>)
    ensures r.Success? <==> 36 + DataSize(|samples|) <= MaxU32
    ensures r.Success? ==> |r.value| == HeaderSize + 2 * |samples|
    ensures r.Success? ==> HeaderFields(r.value, 2 * |samples|)
    ensures r.Success? ==> forall i :: 0 <= i < |samples| ==>
      I16At(r.value, HeaderSize + 2 * i) == Quantise(samples[i])
  {
    var dataSize := DataSize(|samples|);
    if 36 + dataSize > MaxU32 then Failure(FieldOutOfRange)
    else
      var h := Header(dataSize);
      var d := EncodeSamples(samples);
      HeaderReadsBack(dataSize, d);
      assert forall i :: 0 <= i < |samples| ==> I16At(h + d, HeaderSize + 2 * i) == I16At(d, 2 * i);
      Success(h + d)
  }
}
