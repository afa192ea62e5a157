/** The chunk-count and countdown arithmetic of `record_audio`. Python
    computes `int(RATE / CHUNK * record_seconds)` and
    `record_seconds - int(i * CHUNK / RATE)` in floating point and then
    truncates toward zero. Both are modelled by exact integer arithmetic
    with an explicit truncation. For the count this is exact because
    16000 / 1024 = 15.625 is a binary fraction. For the countdown,
    `i * 1024 / 16000` is not, but its fractional part is a multiple of
    1/125: a correctly rounded quotient lands on an integer only when the
    exact quotient is that integer, as long as `i` stays below about 10^15. */
module Timing {

  /** Samples per second. */
  const Rate: int := 16000
  /** Frames per read. */
  const ChunkFrames: int := 1024
  /** Bytes per sample of the 16-bit format. */
  const SampleWidth: int := 2
  /** Channels: mono. */
  const Channels: int := 1
  /** Bytes delivered by one read of `ChunkFrames` frames. */
  const ChunkBytes: int := ChunkFrames * SampleWidth * Channels

  /** Floor division of a non-negative dividend, bounded both ways. */
  lemma FloorDivBounds(a: int, b: int)
    requires a >= 0 && b > 0
    ensures a / b >= 0
    ensures 0 <= (a / b) * b <= a < (a / b) * b + b
  {
    assert a == b * (a / b) + a % b;
    assert (a / b) * b == b * (a / b);
  }

  /** Python's `int()` of the quotient `a / b`: division truncated toward
      zero (Dafny's `/` rounds toward negative infinity for `b > 0`). */
  function TruncDiv(a: int, b: int): (q: int)
    requires b > 0
    ensures a >= 0 ==> 0 <= q * b <= a < q * b + b
    ensures a < 0 ==> q * b - b < a <= q * b <= 0
  {
    if a >= 0 then
      FloorDivBounds(a, b);
      a / b
    else
      FloorDivBounds(-a, b);
      var q := (-a) / b;
      assert (-q) * b == -(q * b);
      -q
  }

  /** `num_chunks = int(RATE / CHUNK * record_seconds)`: the number of
      whole chunks in the requested audio, and never positive for a
      negative duration. */
  function NumChunks(recordSeconds: int): (n: int)
    ensures recordSeconds >= 0 ==> 0 <= n * ChunkFrames <= recordSeconds * Rate < (n + 1) * ChunkFrames
    ensures recordSeconds < 0 ==> n <= 0
  {
    TruncDiv(Rate * recordSeconds, ChunkFrames)
  }

  /** The countdown shown before read `i`:
      `record_seconds - int(i * CHUNK / RATE)`. It falls short of the
      requested duration by the whole seconds of audio in the `i` chunks
      already read. */
  function Countdown(recordSeconds: int, i: nat): (c: int)
    ensures c <= recordSeconds
    ensures (recordSeconds - c) * Rate <= i * ChunkFrames < (recordSeconds - c + 1) * Rate
  {
    recordSeconds - TruncDiv(i * ChunkFrames, Rate)
  }

  /** For non-negative `s` the count is `(125 * s) / 8`; one second gives 15
      chunks (15360 frames, 0.96 s), not 16. For negative `s` it is at most
      zero, so `range(num_chunks)` is empty. */
  lemma {:induction false} NumChunksClosedForm(s: int)
    ensures s >= 0 ==> NumChunks(s) == (125 * s) / 8
    ensures s < 0 ==> NumChunks(s) <= 0
    ensures NumChunks(1) == 15
  {
    if s >= 0 {
      var q := NumChunks(s);
      assert q * 1024 <= 16000 * s < q * 1024 + 1024;
      assert q * 8 <= 125 * s < q * 8 + 8 by {
        assert q * 1024 == (q * 8) * 128;
        assert 16000 * s == (125 * s) * 128;
      }
    }
  }

  /** Every countdown value shown during a bounded recording lies between 1
      and the requested number of seconds. */
  lemma CountdownBounds(s: int, i: nat)
    requires s > 0 && i < NumChunks(s)
    ensures 1 <= Countdown(s, i) <= s
  {
    NumChunksClosedForm(s);
    var e := TruncDiv(i * ChunkFrames, Rate);
    assert 0 <= e * 16000 <= i * 1024;
    assert i * 8 < 125 * s;
    assert (i * 1024) == (i * 8) * 128;
    assert 16000 * s == (125 * s) * 128;
    assert i * 1024 < 16000 * s;
    assert e * 16000 < s * 16000;
  }

  /** The countdown starts at the requested number of seconds and never
      increases from one read to the next. */
  lemma CountdownNonIncreasing(s: int, i: nat, j: nat)
    requires i <= j
    ensures Countdown(s, 0) == s
    ensures Countdown(s, j) <= Countdown(s, i)
  {
    assert i * ChunkFrames <= j * ChunkFrames;
    var a, b := TruncDiv(i * ChunkFrames, Rate), TruncDiv(j * ChunkFrames, Rate);
    assert a * Rate <= i * ChunkFrames <= j * ChunkFrames < b * Rate + Rate;
  }
}
