/**
 * The inline integer parts of the WAV library header (libwav/libwav.h): the
 * `Stereo` sample cursor over one or two blocks of interleaved PCM data,
 * the block availability test of `Wave`, the length of a statistical beat
 * detection, and the iteration test of the FFT.
 *
 * C++ integer widths are written out: `uint64_t` and `uintptr_t` arithmetic
 * wraps modulo 2^64, `unsigned int` values are below 2^32, `/` on integers
 * truncates toward zero, and a conversion to `int` keeps the low 32 bits as a
 * two's complement value.
 */
module LibWav {
  import opened Arithmetic

  const Two32: nat := 0x1_0000_0000
  const Two64: nat := 0x1_0000_0000_0000_0000

  /** `WAVE_FORMAT_EXTENSIBLE`, the format tag of an extended wave. */
  const WaveFormatExtensible: nat := 0xFFFE
  /** `WAVE_FORMAT_PCM`. */
  const WaveFormatPcm: nat := 1

  /** Unsigned 64-bit wrap-around. */
  function U64(x: int): (r: nat)
    ensures r < Two64
    ensures 0 <= x < Two64 ==> r == x
  {
    x % Two64
  }

  /** The `int` a value converts to: its low 32 bits, two's complement. */
  function ToInt32(x: int): (r: int)
    ensures -0x8000_0000 <= r < 0x8000_0000
    ensures -0x8000_0000 <= x < 0x8000_0000 ==> r == x
    ensures (r - x) % Two32 == 0
  {
    var low := x % Two32;
    if low >= 0x8000_0000 then low - Two32 else low
  }

  /** C++ integer division: the quotient truncated toward zero. */
  function TruncDiv(a: int, b: int): (q: int)
    requires b > 0
    ensures a >= 0 ==> q == a / b
    ensures a < 0 ==> q == -((-a) / b)
  {
    if a >= 0 then a / b else -((-a) / b)
  }

  // ---------------------------------------------------------------------------
  // Stereo
  // ---------------------------------------------------------------------------

  /** `memblock`: an address and a length in bytes. */
  datatype MemBlock = MemBlock(p: nat, nBytes: nat)

  /** The header fields the library reads. */
  datatype WaveHeader = WaveHeader(wFormatTag: nat, nChannels: nat, nSamplesPerSec: nat, nBlockAlign: nat, wBitsPerSample: nat)

  /** A `Stereo` object: its cursor, its sample count and its two channels' blocks. */
  datatype Stereo = Stereo(
    index: nat,
    nSamples: nat,
    bytesPerSample: int,
    nChannels: int,
    left: MemBlock,
    right: MemBlock,
    nSamplesPerSec: int)

  /**
   * The `Stereo` constructor: the right channel of two interleaved channels
   * starts one sample after the left; the number of samples is the number of
   * whole frames in the left block. The frame size must be positive: the
   * division by it is otherwise undefined.
   */
  function NewStereo(nChannels: int, nSamplesPerSec: int, bytesPerSample: int, left: MemBlock, right: MemBlock): (s: Stereo)
    requires left.p < Two64 && right.p < Two64 && left.nBytes < Two32
    requires bytesPerSample * nChannels > 0
    ensures s.index == 0 && s.left == left && s.right.nBytes == right.nBytes
    ensures s.right.p == if nChannels == 2 then U64(right.p + bytesPerSample) else right.p
    ensures s.nSamples * (bytesPerSample * nChannels) <= left.nBytes < (s.nSamples + 1) * (bytesPerSample * nChannels)
  {
    var frame := bytesPerSample * nChannels;
    var r := if nChannels == 2 then right.(p := U64(right.p + bytesPerSample)) else right;
    Stereo(0, left.nBytes / frame, bytesPerSample, nChannels, left, r, nSamplesPerSec)
  }

  /** `Stereo(h, single)`: one channel, the same block on both sides. */
  function MonoFromHeader(h: WaveHeader, single: MemBlock): (s: Stereo)
    requires single.p < Two64 && single.nBytes < Two32 && h.wBitsPerSample >= 8
    ensures s.left == s.right == single && s.nChannels == 1
    ensures s.nSamples == single.nBytes / (h.wBitsPerSample / 8)
  {
    NewStereo(1, h.nSamplesPerSec, h.wBitsPerSample / 8, single, single)
  }

  /**
   * `Stereo(h, left, right)` as `getStereoObject` calls it, with one block
   * for both channels: the right channel reads one sample further on, and a
   * frame holds one sample of each.
   */
  function StereoFromHeader(h: WaveHeader, m: MemBlock): (s: Stereo)
    requires m.p < Two64 && m.nBytes < Two32 && h.wBitsPerSample >= 8
    ensures s.left == m && s.right == m.(p := U64(m.p + h.wBitsPerSample / 8)) && s.nChannels == 2
    ensures s.nSamples == m.nBytes / (2 * (h.wBitsPerSample / 8))
  {
    NewStereo(2, h.nSamplesPerSec, h.wBitsPerSample / 8, m, m)
  }

  /** `next()`: the index moves on (modulo 2^64); true while it is on a sample. */
  function Next(s: Stereo): (r: (Stereo, bool))
    ensures r.0 == s.(index := U64(s.index + 1))
    ensures r.1 <==> r.0.index < s.nSamples
  {
    var moved := s.(index := U64(s.index + 1));
    (moved, moved.index < s.nSamples)
  }

  /**
   * `prev()`: the unsigned index moves back, wrapping from 0 to 2^64 - 1; its
   * `>= 0` test always holds, so only the bound decides.
   */
  function Prev(s: Stereo): (r: (Stereo, bool))
    ensures r.0 == s.(index := U64(s.index - 1))
    ensures r.1 <==> r.0.index < s.nSamples
  {
    var moved := s.(index := U64(s.index - 1));
    (moved, moved.index >= 0 && moved.index < s.nSamples)
  }

  /** `reset()`. */
  function Reset(s: Stereo): (r: Stereo)
    ensures r.index == 0 && r.nSamples == s.nSamples && r.left == s.left && r.right == s.right
  {
    s.(index := 0)
  }

  /** `prev` undoes `next` and `next` undoes `prev`, wrap-around included. */
  lemma PrevUndoesNext(s: Stereo)
    requires s.index < Two64
    ensures Prev(Next(s).0).0 == s
    ensures Next(Prev(s).0).0 == s
  {
  }

  /**
   * `prev` at the first sample wraps to the largest index, which is never a
   * sample of a block shorter than 2^32 bytes: the test reports the start.
   */
  lemma PrevAtStartFails(s: Stereo)
    requires s.nSamples < Two32
    ensures Prev(Reset(s)).0.index == Two64 - 1
    ensures !Prev(Reset(s)).1
  {
  }

  /** `k` calls of `next`, the result of the last one. */
  function NextTimes(s: Stereo, k: nat): (r: (Stereo, bool))
    decreases k
  {
    if k == 0 then (s, s.index < s.nSamples)
    else NextTimes(Next(s).0, k - 1)
  }

  /**
   * The do-while iteration: from a reset cursor, `k` calls of `next` land on
   * index `k`, and the last one is true exactly while `k` is below the
   * number of samples.
   */
  lemma {:induction false} NextWalksTheSamples(s: Stereo, k: nat)
    requires s.index + k < Two64
    ensures NextTimes(s, k).0 == s.(index := s.index + k)
    ensures NextTimes(s, k).1 <==> s.index + k < s.nSamples
    decreases k
  {
    if k > 0 {
      NextWalksTheSamples(Next(s).0, k - 1);
    }
  }

  /** `getAvg()`: the mean of the left and right samples, truncated toward zero. */
  function Avg(left: int, right: int): (r: int)
  {
    TruncDiv(left + right, 2)
  }

  /** The mean lies between the two samples, is symmetric, and is the sample itself when both agree. */
  lemma AvgBetween(left: int, right: int)
    ensures (if left <= right then left else right) <= Avg(left, right) <= (if left <= right then right else left)
    ensures Avg(left, right) == Avg(right, left)
    ensures Avg(left, left) == left
  {
  }

  /** Truncation rounds a negative half toward zero, not down. */
  lemma AvgTruncatesTowardZero()
    ensures Avg(-1, -2) == -1 && Avg(1, 2) == 1 && Avg(-1, 0) == 0
  {
  }

  // ---------------------------------------------------------------------------
  // Wave
  // ---------------------------------------------------------------------------

  /**
   * The iteration state of a `Wave`: whether it has started (`p_data` is not
   * null), the last block fetched, and where the data chunk lies.
   */
  datatype WaveCursor = WaveCursor(started: bool, mem: MemBlock, blockAlign: nat, dataP: nat, dataSize: nat)

  /** The arithmetic of `hasNext(nBlocks)` is within range: nothing wraps. */
  predicate NoWrap(w: WaveCursor, nBlocks: int) {
    0 <= nBlocks * w.blockAlign < 0x8000_0000 && w.dataSize < 0x8000_0000 &&
    w.mem.p + w.mem.nBytes + nBlocks * w.blockAlign < Two64 && w.dataP + w.dataSize < Two64
  }

  /**
   * `hasNext(nBlocks)`: true before the iteration starts and after an empty
   * fetch; otherwise false exactly when the end of `nBlocks` more blocks
   * after the current one reaches the end of the data, exact fit included.
   */
  function HasNextBlocks(w: WaveCursor, nBlocks: int): (r: bool)
    requires w.mem.p < Two64 && w.mem.nBytes < Two32 && w.dataP < Two64 && w.dataSize < Two32
    ensures !w.started || w.mem.p == 0 ==> r
    ensures w.started && w.mem.p != 0 && NoWrap(w, nBlocks) ==>
      (r <==> w.mem.p + w.mem.nBytes + nBlocks * w.blockAlign < w.dataP + w.dataSize)
  {
    if !w.started then true
    else if w.mem.p == 0 then true
    else
      var nBytes := ToInt32(nBlocks * w.blockAlign);
      var reach := U64(w.mem.p + w.mem.nBytes + nBytes);
      var end := U64(w.dataP + ToInt32(w.dataSize));
      !(reach >= end)
  }

  /** `hasNext()`. */
  function HasNext(w: WaveCursor): (r: bool)
    requires w.mem.p < Two64 && w.mem.nBytes < Two32 && w.dataP < Two64 && w.dataSize < Two32
  {
    HasNextBlocks(w, 1)
  }

  /** `reset()`: the iteration starts over, so blocks are available again. */
  function ResetWave(w: WaveCursor): (r: WaveCursor)
    requires w.mem.p < Two64 && w.mem.nBytes < Two32 && w.dataP < Two64 && w.dataSize < Two32
    ensures !r.started && r.mem == w.mem && r.dataP == w.dataP && r.dataSize == w.dataSize
    ensures forall n :: HasNextBlocks(r, n)
  {
    w.(started := false)
  }

  /**
   * A block that would end exactly at the end of the data is reported as not
   * available: the test is `>=`, so the last block of a chunk that divides
   * evenly is never fetched through `hasNext`.
   */
  lemma ExactFitUnavailable(w: WaveCursor)
    requires w.started && 0 < w.mem.p && w.mem.nBytes < Two32 && w.blockAlign < 0x8000_0000
    requires w.dataSize < 0x8000_0000 && w.dataP + w.dataSize < Two64
    requires w.mem.p + w.mem.nBytes + w.blockAlign == w.dataP + w.dataSize
    ensures !HasNext(w)
  {
    assert NoWrap(w, 1);
  }

  /** `isExtendedWave()`: the format tag is `WAVE_FORMAT_EXTENSIBLE`. */
  function IsExtendedWave(h: WaveHeader): (r: bool)
    ensures r <==> h.wFormatTag == 0xFFFE
    ensures h.wFormatTag == WaveFormatPcm ==> !r
  {
    h.wFormatTag == WaveFormatExtensible
  }

  // ---------------------------------------------------------------------------
  // Beat detection and FFT
  // ---------------------------------------------------------------------------

  /**
   * `StatBeatDetection::length()`: the data size over the frame size, over
   * the precision, each division truncated. The divisors must be positive:
   * a zero one is undefined.
   */
  function BeatLength(dataSize: nat, h: WaveHeader, precision: int): (r: int)
    requires dataSize < Two32 && (h.wBitsPerSample / 8) * h.nChannels > 0 && precision > 0
  {
    var frame := (h.wBitsPerSample / 8) * h.nChannels;
    TruncDiv(TruncDiv(ToInt32(dataSize), frame), precision)
  }

  lemma NestedDivision(a: nat, b: nat, c: nat)
    requires b > 0 && c > 0
    ensures a / b / c == a / (b * c)
  {
    var q := a / b;
    var q2, r2 := q / c, q % c;
    var r1 := a % b;
    assert a == q2 * (b * c) + (r2 * b + r1) by {
      assert a == q * b + r1;
      assert q == q2 * c + r2;
      Regroup(q2, c, r2, b);
    }
    assert r2 * b + r1 < b * c by {
      RemainderBound(r2, c, b, r1);
    }
    DivisionUnique(a, b * c, q2, r2 * b + r1);
  }

  lemma Regroup(q: int, c: int, r: int, b: int)
    ensures (q * c + r) * b == q * (b * c) + r * b
  {
  }

  lemma RemainderBound(r2: int, c: int, b: int, r1: int)
    requires 0 <= r2 < c && 0 <= r1 < b
    ensures r2 * b + r1 < b * c
  {
    assert r2 * b <= (c - 1) * b;
  }

  /**
   * For data below 2^31 bytes the length is the number of whole blocks of
   * `precision` frames in the data: the two truncating divisions compose.
   */
  lemma BeatLengthCountsBlocks(dataSize: nat, h: WaveHeader, precision: int)
    requires dataSize < 0x8000_0000 && (h.wBitsPerSample / 8) * h.nChannels > 0 && precision > 0
    ensures BeatLength(dataSize, h, precision) == dataSize / ((h.wBitsPerSample / 8) * h.nChannels * precision)
  {
    var frame := (h.wBitsPerSample / 8) * h.nChannels;
    NestedDivision(dataSize, frame, precision);
  }

  /** The iteration state of an `FFTransform`: whether its buffers exist, `k`, and `nSamples`. */
  datatype FftCursor = FftCursor(initialised: bool, k: int, nSamples: int)

  /** The `FFTransform` constructor: `nSamples` is the stereo's count converted to `int`. */
  function NewFft(s: Stereo): (f: FftCursor)
    ensures !f.initialised && f.k == 0
    ensures s.nSamples < 0x8000_0000 ==> f.nSamples == s.nSamples
  {
    FftCursor(false, 0, ToInt32(s.nSamples))
  }

  /** `FFTransform::hasNext()`: true until the buffers exist, then while `k` is below `nSamples`. */
  function FftHasNext(f: FftCursor): (r: bool)
    ensures !f.initialised ==> r
    ensures f.initialised ==> (r <==> f.k < f.nSamples)
  {
    if !f.initialised then true else f.k < f.nSamples
  }

  /**
   * A stereo of 2^31 samples or more has a negative `nSamples` after the
   * conversion, so an initialised transform over it has nothing to iterate.
   */
  lemma HugeStereoHasNoFftSamples(s: Stereo)
    requires 0x8000_0000 <= s.nSamples < Two32
    ensures !FftHasNext(NewFft(s).(initialised := true))
  {
  }
}
