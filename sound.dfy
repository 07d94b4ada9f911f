/** The description of the PCM data an encoder is given (the fields of
    SoundInfo that the OGG encoder reads). */
module Sound {

  /** isSigned: 0 unsigned integer, 1 signed integer, 2 IEEE float; any other
      value is accepted and falls through to the normalizer's default. */
  datatype SoundInfo = SoundInfo(channels: nat, rate: nat, bitsize: nat, isSigned: nat)

  /** byte_per_sample: bitsize / 8, the whole bytes of one sample. */
  function SampleBytes(info: SoundInfo): (n: nat)
    ensures n * 8 <= info.bitsize < n * 8 + 8
  {
    info.bitsize / 8
  }

  /** byte_per_frame: channels * bitsize / 8, divided after the product. It
      holds the sample bytes of every channel, and is exactly that when the
      bit size is a whole number of bytes. */
  function FrameBytes(info: SoundInfo): (n: nat)
    ensures info.channels * SampleBytes(info) <= n
    ensures info.bitsize % 8 == 0 ==> n == info.channels * SampleBytes(info)
  {
    var b := SampleBytes(info);
    assert info.channels * (b * 8) <= info.channels * info.bitsize by {
      MulMonotone(info.channels, b * 8, info.bitsize);
    }
    assert info.bitsize % 8 == 0 ==> info.channels * info.bitsize == (info.channels * b) * 8;
    info.channels * info.bitsize / 8
  }

  lemma MulMonotone(k: nat, a: nat, b: nat)
    requires a <= b
    ensures k * a <= k * b && a * k <= b * k
  {
  }

  /** kOggStreamBufferSize: the frames the encoder asks for per read. */
  const OGG_STREAM_BUFFER_SIZE: nat := 102400

  /** The byte count of one read request: kOggStreamBufferSize frames. It
      is at least one frame, and empty only when a frame is. */
  function ReadRequest(info: SoundInfo): (n: nat)
    ensures FrameBytes(info) <= n
    ensures n == 0 <==> FrameBytes(info) == 0
  {
    OGG_STREAM_BUFFER_SIZE * FrameBytes(info)
  }
}
