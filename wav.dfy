/** The sample arithmetic of main.cpp's read_wav: past a 44-byte header, every
    4-byte frame holds a left and a right 16-bit little-endian two's-complement
    value (canonical RIFF/WAVE PCM), and becomes one mono sample
    ((left + right) / 2.0) / 32768.0. The file is modelled as its whole content,
    a sequence of bytes; opening, seeking and failing to open are not modelled. */
module Wav {

  type Byte = x: int | 0 <= x < 0x100
  type Int16 = x: int | -0x8000 <= x < 0x8000

  /** The header that read_wav skips with seekg(44). */
  const HeaderSize: nat := 44
  /** sizeof(buffer): two channels of two bytes. */
  const FrameSize: nat := 4

  /** The signed 16-bit value stored little-endian at bytes[p], bytes[p+1]. */
  function Int16At(bytes: seq<Byte>, p: nat): (v: Int16)
    requires p + 2 <= |bytes|
    ensures v % 0x1_0000 == bytes[p] as int + 0x100 * bytes[p + 1] as int
    ensures v < 0 <==> bytes[p + 1] >= 0x80
  {
    var u: int := bytes[p] as int + 0x100 * bytes[p + 1] as int;
    if u < 0x8000 then u else u - 0x1_0000
  }

  /** The two little-endian bytes that store v. */
  function Int16Bytes(v: Int16): (b: seq<Byte>)
    ensures |b| == 2
  {
    var u := if v < 0 then v + 0x1_0000 else v;
    [u % 0x100, u / 0x100]
  }

  /** Decoding inverts encoding ... */
  lemma Int16RoundTrip(v: Int16)
    ensures Int16At(Int16Bytes(v), 0) == v
  {
  }

  /** ... and encoding inverts decoding, so every byte pair is one value. */
  lemma Int16BytesRoundTrip(bytes: seq<Byte>, p: nat)
    requires p + 2 <= |bytes|
    ensures Int16Bytes(Int16At(bytes, p)) == bytes[p..p + 2]
  {
  }

  /** The mono sample of the frame at bytes[p..p+4]: the mean of the two
      channels, scaled by 1/32768. Both divisions are by powers of two on
      values that fit a double exactly, so the real quotient is the double. */
  function MonoSample(bytes: seq<Byte>, p: nat): (x: real)
    requires p + 4 <= |bytes|
    ensures -1.0 <= x <= 32767.0 / 32768.0
  {
    var left := Int16At(bytes, p);
    var right := Int16At(bytes, p + 2);
    ((left + right) as real / 2.0) / 32768.0
  }

  /** A frame written as the bytes of the channel values l and r decodes to
      ((l + r) / 2) / 32768. */
  lemma MonoSampleOfFrame(bytes: seq<Byte>, p: nat, l: Int16, r: Int16)
    requires p + 4 <= |bytes|
    requires bytes[p..p + 4] == Int16Bytes(l) + Int16Bytes(r)
    ensures MonoSample(bytes, p) == ((l + r) as real / 2.0) / 32768.0
  {
    var f := bytes[p..p + 4];
    assert bytes[p] == f[0] && bytes[p + 1] == f[1] && bytes[p + 2] == f[2] && bytes[p + 3] == f[3];
    assert Int16At(bytes, p) == Int16At(Int16Bytes(l), 0);
    assert Int16At(bytes, p + 2) == Int16At(Int16Bytes(r), 0);
    Int16RoundTrip(l);
    Int16RoundTrip(r);
  }

  /** The number of whole frames after the header: none when the file is
      shorter than the header, and a trailing partial frame is dropped. */
  function FrameCount(len: nat): (c: nat)
    ensures len < HeaderSize ==> c == 0
    ensures len >= HeaderSize ==> HeaderSize + FrameSize * c <= len < HeaderSize + FrameSize * (c + 1)
  {
    if len < HeaderSize then 0 else (len - HeaderSize) / FrameSize
  }

  /** read_wav's loop: while a whole 4-byte frame can be read, push its mono
      sample. */
  method ReadSamples(bytes: seq<Byte>) returns (samples: seq<real>)
    ensures |samples| == FrameCount(|bytes|)
    ensures forall i :: 0 <= i < |samples| ==>
      samples[i] == MonoSample(bytes, HeaderSize + FrameSize * i)
    ensures forall i :: 0 <= i < |samples| ==> -1.0 <= samples[i] < 1.0
  {
    samples := [];
    var pos := HeaderSize;
    while pos + FrameSize <= |bytes|
      invariant pos == HeaderSize + FrameSize * |samples|
      invariant |samples| <= FrameCount(|bytes|)
      invariant forall i :: 0 <= i < |samples| ==>
        samples[i] == MonoSample(bytes, HeaderSize + FrameSize * i)
      decreases |bytes| - pos
    {
      samples := samples + [MonoSample(bytes, pos)];
      pos := pos + FrameSize;
    }
  }
}
