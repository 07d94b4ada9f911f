/** The uninterleave step of the encoder's data loop: the bytes of one read
    are split into one sequence of samples per channel. */
module Deinterleave {
  import opened Sound
  import opened SampleConvert

  /** Where sample (frame i, channel ch) starts in the read bytes:
      i * byte_per_frame + ch * byte_per_sample. */
  function SampleOffset(info: SoundInfo, i: nat, ch: nat): nat
  {
    i * FrameBytes(info) + ch * SampleBytes(info)
  }

  /** The number of whole frames in a read: a trailing partial frame is dropped. */
  function FrameCount(bytes: nat, info: SoundInfo): nat
    requires FrameBytes(info) > 0
  {
    bytes / FrameBytes(info)
  }

  /** A whole frame fits in the sample bytes of its channels: the sample
      (i, ch) of a read lies inside the bytes read when i is below the frame
      count and ch below the channel count. */
  lemma SampleInRead(bytes: nat, info: SoundInfo, i: nat, ch: nat)
    requires FrameBytes(info) > 0
    requires i < FrameCount(bytes, info) && ch < info.channels
    ensures SampleOffset(info, i, ch) + SampleBytes(info) <= bytes
    ensures Width(info) <= SampleBytes(info)
  {
    var f, b := FrameBytes(info), SampleBytes(info);
    // channels * (bitsize / 8) never exceeds (channels * bitsize) / 8
    assert b * 8 <= info.bitsize;
    assert info.channels * b * 8 <= info.channels * info.bitsize by {
      MulMonotone(info.channels, b * 8, info.bitsize);
    }
    assert info.channels * b <= f;
    assert (ch + 1) * b <= info.channels * b by {
      MulMonotone(b, ch + 1, info.channels);
    }
    // i + 1 frames fit in the bytes read
    assert (i + 1) * f <= FrameCount(bytes, info) * f by {
      MulMonotone(f, i + 1, FrameCount(bytes, info));
    }
    assert FrameCount(bytes, info) * f <= bytes;
    assert SampleOffset(info, i, ch) + b == i * f + (ch + 1) * b;
  }

  lemma DivMonotone(a: nat, b: nat, d: nat)
    requires a <= b && d > 0
    ensures a / d <= b / d
  {
    var q, r := b / d, b % d;
    assert b == q * d + r && r < d;
    assert (a / d) * d <= a;
    assert (a / d) * d < (q + 1) * d;
    MulCancel(a / d, q + 1, d);
  }

  lemma MulCancel(x: nat, y: nat, d: nat)
    requires d > 0 && x * d < y * d
    ensures x < y
  {}

  /** The frame count of a read never exceeds the kOggStreamBufferSize
      frames requested, and it covers every whole frame of the read. */
  lemma FrameCountBounds(bytes: nat, info: SoundInfo)
    requires FrameBytes(info) > 0 && bytes <= ReadRequest(info)
    ensures FrameCount(bytes, info) <= OGG_STREAM_BUFFER_SIZE
    ensures FrameCount(bytes, info) * FrameBytes(info) <= bytes < (FrameCount(bytes, info) + 1) * FrameBytes(info)
  {
    var f := FrameBytes(info);
    DivMonotone(bytes, OGG_STREAM_BUFFER_SIZE * f, f);
    assert OGG_STREAM_BUFFER_SIZE * f / f == OGG_STREAM_BUFFER_SIZE;
  }

  /** The sample that ConvertToFloatSample produces for (frame i, channel ch). */
  function SampleAt(chunk: seq<bv8>, info: SoundInfo, i: nat, ch: nat): Sample
    requires FrameBytes(info) > 0
    requires i < FrameCount(|chunk|, info) && ch < info.channels
  {
    SampleInRead(|chunk|, info, i, ch);
    Convert(chunk[SampleOffset(info, i, ch)..], info)
  }

  /** The loops `for i < bytes / byte_per_frame, for ch < channels:
      buffer[ch][i] = ConvertToFloatSample(...)` over the read buffer. */
  method Deinterleave(readBuffer: array<bv8>, bytes: nat, info: SoundInfo, buffer: array2<Sample>)
    returns (frames: nat)
    requires bytes <= readBuffer.Length
    requires FrameBytes(info) > 0
    requires buffer.Length0 == info.channels && FrameCount(bytes, info) <= buffer.Length1
    modifies buffer
    ensures frames == FrameCount(bytes, info)
    ensures forall ch, i :: 0 <= ch < info.channels && 0 <= i < frames ==>
      buffer[ch, i] == SampleAt(readBuffer[..bytes], info, i, ch)
    ensures forall ch, i :: 0 <= ch < buffer.Length0 && frames <= i < buffer.Length1 ==>
      buffer[ch, i] == old(buffer[ch, i])
  {
    var chunk := readBuffer[..bytes];
    frames := bytes / FrameBytes(info);
    var i := 0;
    while i < frames
      invariant i <= frames
      invariant forall ch, k :: 0 <= ch < info.channels && 0 <= k < i ==>
        buffer[ch, k] == SampleAt(chunk, info, k, ch)
      invariant forall ch, k :: 0 <= ch < buffer.Length0 && i <= k < buffer.Length1 ==>
        buffer[ch, k] == old(buffer[ch, k])
    {
      var ch := 0;
      while ch < info.channels
        invariant ch <= info.channels
        invariant forall c, k :: 0 <= c < info.channels && 0 <= k < i ==>
          buffer[c, k] == SampleAt(chunk, info, k, c)
        invariant forall c :: 0 <= c < ch ==> buffer[c, i] == SampleAt(chunk, info, i, c)
        invariant forall c, k :: 0 <= c < buffer.Length0 && i <= k < buffer.Length1 && !(k == i && c < ch) ==>
          buffer[c, k] == old(buffer[c, k])
      {
        SampleInRead(bytes, info, i, ch);
        buffer[ch, i] := Convert(chunk[SampleOffset(info, i, ch)..], info);
        ch := ch + 1;
      }
      i := i + 1;
    }
  }
}
