/**
  MP3 decoding to a mono sample stream: the decoder's frames are read one
  after the other until end of file, and every group of `channels`
  interleaved samples becomes one mono sample.

  The decoder itself is not modelled: the results it returns, frame after
  frame, are given as a sequence that ends with an error result (end of
  file being one of them, as in minimp3).
*/
module Helpers {
  import opened Results

  /** Rust's `i16`; arithmetic on it is checked by Dafny to stay in range. */
  newtype i16 = x: int | -32768 <= x <= 32767

  /** The channel counts the model admits, so that `channels as i16` is exact. */
  const MaxChannels: nat := 32767

  /** minimp3's error kinds; `Eof` marks the end of the input. */
  datatype Mp3Error = Eof | InsufficientData | SkippedData | Io

  /** One result of `Decoder::next_frame`: a frame of interleaved samples, or an error. */
  datatype NextFrame = Frame(data: seq<i16>, channels: nat) | Error(err: Mp3Error)

  /** Why `decode_mp3` gives up. */
  datatype DecodeError = InvalidChannels | Decoder(err: Mp3Error)

  // ---------------------------------------------------------------------
  // Down-mixing one group of interleaved samples
  // ---------------------------------------------------------------------

  /** `x / c` on `i16`: division truncating toward zero, unlike Dafny's `/`. */
  function TruncDiv(x: i16, c: nat): i16
    requires 1 <= c <= MaxChannels
  {
    DivBelow(x as int, c);
    if x >= 0 then ((x as int) / c) as i16 else (-((-(x as int)) / c)) as i16
  }

  lemma DivBelow(x: int, c: nat)
    requires 1 <= c
    ensures x >= 0 ==> 0 <= x / c <= x
    ensures x < 0 ==> 0 <= (-x) / c <= -x
  {
  }

  /** Division by a positive number keeps the order of its arguments. */
  lemma DivMonotone(a: int, b: int, c: nat)
    requires 0 <= a <= b && 1 <= c
    ensures a / c <= b / c
  {
    var qa, qb := a / c, b / c;
    assert a == qa * c + a % c && b == qb * c + b % c;
    if qa > qb {
      assert qa >= qb + 1;
      assert qa * c >= (qb + 1) * c by {
        MulMonotone(qb + 1, qa, c);
      }
    }
  }

  lemma MulMonotone(x: int, y: int, c: nat)
    requires x <= y
    ensures x * c <= y * c
  {
  }

  /**
    Truncating division: the quotient has the sign of x, leaves a remainder
    smaller than c of the same sign, and stays within what the extreme
    `i16` values give.
  */
  lemma TruncDivSpec(x: i16, c: nat)
    requires 1 <= c <= MaxChannels
    ensures var q := TruncDiv(x, c) as int;
      && (x >= 0 ==> 0 <= x as int - c * q < c)
      && (x < 0 ==> -(c as int) < x as int - c * q <= 0)
      && -(32768 / c) <= q <= 32767 / c
  {
    if x >= 0 {
      NonNegativeQuotient(x as int, c);
    } else {
      NegativeQuotient(x as int, c);
    }
  }

  lemma NonNegativeQuotient(a: int, c: nat)
    requires 0 <= a <= 32767 && 1 <= c
    ensures 0 <= a - c * (a / c) < c
    ensures 0 <= a / c <= 32767 / c
  {
    DivMonotone(a, 32767, c);
    DivRemainder(a, c);
  }

  lemma NegativeQuotient(x: int, c: nat)
    requires -32768 <= x < 0 && 1 <= c
    ensures -(c as int) < x - c * -((-x) / c) <= 0
    ensures -(32768 / c) <= -((-x) / c) <= 0
  {
    DivMonotone(-x, 32768, c);
    DivRemainder(-x, c);
    assert c * -((-x) / c) == -(c * ((-x) / c));
  }

  lemma DivRemainder(a: int, c: nat)
    requires 0 <= a && 1 <= c
    ensures 0 <= a - c * (a / c) < c
  {
  }

  /** n quotients of a by c add up to at most a when n <= c. */
  lemma QuotientsFit(n: nat, a: nat, c: nat)
    requires 1 <= c && n <= c
    ensures n * (a / c) <= a
  {
    MulMonotone(n, c, a / c);
    assert c * (a / c) <= a;
  }

  /**
    `samples.iter().fold(0, |sum, x| sum + x / channels as i16)` over the
    first |g| samples of a group: the running `i16` sum never leaves the
    range the terms allow, so it never overflows.
  */
  function GroupSum(g: seq<i16>, c: nat): (sum: i16)
    requires 1 <= c <= MaxChannels && |g| <= c
    ensures -(|g| * (32768 / c)) <= sum as int <= |g| * (32767 / c)
    decreases |g|
  {
    if g == [] then 0
    else
      var n := |g| - 1;
      var partial := GroupSum(g[..n], c);
      TruncDivSpec(g[n], c);
      Distribute(32768 / c, n, 1);
      Distribute(32767 / c, n, 1);
      QuotientsFit(|g|, 32768, c);
      QuotientsFit(|g|, 32767, c);
      partial + TruncDiv(g[n], c)
  }

  /** The exact sum of a group's samples. */
  function Sum(g: seq<i16>): int
    decreases |g|
  {
    if g == [] then 0 else Sum(g[..|g| - 1]) + g[|g| - 1] as int
  }

  /**
    The mono sample is the group's sum divided term by term, so it can
    miss the mean by up to c - 1 per term: c times the sample lies within
    |g| * (c - 1) of the exact sum.
  */
  lemma {:induction false} GroupSumNearSum(g: seq<i16>, c: nat)
    requires 1 <= c <= MaxChannels && |g| <= c
    ensures -(|g| * (c - 1)) <= Sum(g) - c * GroupSum(g, c) as int <= |g| * (c - 1)
    decreases |g|
  {
    if g != [] {
      var n := |g| - 1;
      var s, t := GroupSum(g[..n], c) as int, TruncDiv(g[n], c) as int;
      GroupSumNearSum(g[..n], c);
      TruncDivSpec(g[n], c);
      assert GroupSum(g, c) as int == s + t;
      Distribute(c, s, t);
      Distribute(c - 1, n, 1);
    }
  }

  lemma Distribute(c: int, s: int, t: int)
    ensures c * (s + t) == c * s + c * t
    ensures (s + t) * c == s * c + t * c
  {
  }

  /** The two samples 1 and 1 of a stereo frame mix to 0, not to their mean 1. */
  lemma StereoMixIsNotTheMean()
    ensures GroupSum([1, 1], 2) == 0
    ensures Sum([1, 1]) / 2 == 1
  {
    assert [1, 1][..1] == [1 as i16];
    assert [1 as i16][..0] == [];
  }

  // ---------------------------------------------------------------------
  // One frame
  // ---------------------------------------------------------------------

  lemma GroupInFrame(len: nat, c: nat, k: nat)
    requires 1 <= c && k < len / c
    ensures k * c + c <= len
  {
    MulMonotone(k + 1, len / c, c);
    assert (len / c) * c <= len;
  }

  /** `data.chunks_exact(channels)`, each group mixed to one sample; a partial group at the end is dropped. */
  function Downmix(data: seq<i16>, c: nat): seq<i16>
    requires 1 <= c <= MaxChannels
  {
    seq(|data| / c,
        k requires 0 <= k < |data| / c =>
          GroupInFrame(|data|, c, k);
          GroupSum(data[k * c .. k * c + c], c))
  }

  /** The first k + 1 mono samples of a frame are its first k followed by the mix of group k. */
  lemma DownmixPrefix(data: seq<i16>, c: nat, k: nat)
    requires 1 <= c <= MaxChannels && k < |data| / c
    ensures k * c + c <= |data|
    ensures Downmix(data, c)[..k + 1] == Downmix(data, c)[..k] + [GroupSum(data[k * c .. k * c + c], c)]
  {
    GroupInFrame(|data|, c, k);
  }

  /** A frame gives |data| / c mono samples, and with one channel they are its samples. */
  lemma DownmixShape(data: seq<i16>, c: nat)
    requires 1 <= c <= MaxChannels
    ensures |Downmix(data, c)| == |data| / c
    ensures c == 1 ==> Downmix(data, c) == data
  {
    if c == 1 {
      forall k | 0 <= k < |data| ensures Downmix(data, 1)[k] == data[k] {
        var g := data[k .. k + 1];
        assert g[..0] == [];
        assert TruncDiv(g[0], 1) == g[0];
      }
    }
  }

  // ---------------------------------------------------------------------
  // The frame loop
  // ---------------------------------------------------------------------

  /** The decoder's results run up to an error result (at the latest, end of file). */
  ghost predicate EndsWithError(steps: seq<NextFrame>)
  {
    |steps| > 0 && steps[|steps| - 1].Error?
  }

  /** Every frame's channel count converts to `i16` exactly. */
  ghost predicate ChannelsFit(steps: seq<NextFrame>)
  {
    forall j :: 0 <= j < |steps| && steps[j].Frame? ==> steps[j].channels <= MaxChannels
  }

  /** A frame the loop mixes and goes past. */
  predicate GoodFrame(step: NextFrame)
  {
    step.Frame? && 1 <= step.channels <= MaxChannels
  }

  /** What `decode_mp3` returns when it reads the decoder's results from position i on. */
  function DecodeFrom(steps: seq<NextFrame>, i: nat): Result<seq<i16>, DecodeError>
    requires EndsWithError(steps) && ChannelsFit(steps) && i < |steps|
    decreases |steps| - i
  {
    match steps[i]
    case Error(Eof) => Ok([])
    case Error(e) => Err(Decoder(e))
    case Frame(data, channels) =>
      if channels < 1 then Err(InvalidChannels)
      else
        match DecodeFrom(steps, i + 1)
        case Ok(rest) => Ok(Downmix(data, channels) + rest)
        case Err(e) => Err(e)
  }

  /** Samples already collected, put in front of the rest of the run's outcome. */
  function Prepend(done: seq<i16>, r: Result<seq<i16>, DecodeError>): Result<seq<i16>, DecodeError>
  {
    match r
    case Ok(rest) => Ok(done + rest)
    case Err(e) => Err(e)
  }

  lemma PrependNothing(r: Result<seq<i16>, DecodeError>)
    ensures Prepend([], r) == r
  {
    if r.Ok? {
      assert [] + r.value == r.value;
    }
  }

  lemma PrependTwice(a: seq<i16>, b: seq<i16>, r: Result<seq<i16>, DecodeError>)
    ensures Prepend(a, Prepend(b, r)) == Prepend(a + b, r)
  {
    if r.Ok? {
      assert a + (b + r.value) == (a + b) + r.value;
    }
  }

  /** A frame with channels is followed by the next result, since the last result is an error. */
  lemma DecodeFrame(steps: seq<NextFrame>, i: nat)
    requires EndsWithError(steps) && ChannelsFit(steps) && i < |steps|
    requires steps[i].Frame? && steps[i].channels >= 1
    ensures i + 1 < |steps| && steps[i].channels <= MaxChannels
    ensures DecodeFrom(steps, i) == Prepend(Downmix(steps[i].data, steps[i].channels), DecodeFrom(steps, i + 1))
  {
  }

  /**
    `decode_mp3`: read frames until end of file, appending each frame's
    mono samples; a frame without channels, or any decoder error other
    than end of file, ends the call with that error.
  */
  method DecodeMp3(steps: seq<NextFrame>) returns (r: Result<seq<i16>, DecodeError>)
    requires EndsWithError(steps) && ChannelsFit(steps)
    ensures r == DecodeFrom(steps, 0)
  {
    var frames: seq<i16> := [];
    var i := 0;
    PrependNothing(DecodeFrom(steps, 0));
    while true
      invariant 0 <= i < |steps|
      invariant DecodeFrom(steps, 0) == Prepend(frames, DecodeFrom(steps, i))
      decreases |steps| - i
    {
      match steps[i]
      case Frame(data, channels) =>
        if channels < 1 {
          return Err(InvalidChannels);
        }
        ghost var before := frames;
        ghost var mono := Downmix(data, channels);
        DownmixShape(data, channels);
        for k := 0 to |data| / channels
          invariant frames == before + mono[..k]
        {
          DownmixPrefix(data, channels, k);
          var samples := data[k * channels .. k * channels + channels];
          frames := frames + [GroupSum(samples, channels)];
        }
        assert mono[..|data| / channels] == mono;
        DecodeFrame(steps, i);
        PrependTwice(before, mono, DecodeFrom(steps, i + 1));
        i := i + 1;
      case Error(Eof) =>
        assert frames + [] == frames;
        break;
      case Error(e) =>
        return Err(Decoder(e));
    }
    return Ok(frames);
  }

  // ---------------------------------------------------------------------
  // What the loop returns, stated without the loop
  // ---------------------------------------------------------------------

  /** The first result from position i on that stops the loop. */
  function FirstStop(steps: seq<NextFrame>, i: nat): (k: nat)
    requires EndsWithError(steps) && i < |steps|
    ensures i <= k < |steps| && !GoodFrame(steps[k])
    ensures forall j :: i <= j < k ==> GoodFrame(steps[j])
    decreases |steps| - i
  {
    if GoodFrame(steps[i]) then FirstStop(steps, i + 1) else i
  }

  /** The mono samples of a run of good frames, one frame after the other. */
  function MonoOf(frames: seq<NextFrame>): seq<i16>
    requires forall f | f in frames :: GoodFrame(f)
    decreases |frames|
  {
    if frames == [] then []
    else
      var f := frames[0];
      assert GoodFrame(f);
      Downmix(f.data, f.channels) + MonoOf(frames[1..])
  }

  /** The number of whole groups in a frame. */
  function GroupCount(f: NextFrame): nat
    requires GoodFrame(f)
  {
    |f.data| / f.channels
  }

  /** The number of mono samples a run of good frames gives. */
  function MonoCount(frames: seq<NextFrame>): nat
    requires forall f | f in frames :: GoodFrame(f)
    decreases |frames|
  {
    if frames == [] then 0
    else
      GroupCount(frames[0]) + MonoCount(frames[1..])
  }

  /**
    The outcome of a decoding run: at the first result that stops the
    loop, a frame (which then has no channels) gives the channel error, a
    decoder error other than end of file gives that error, and end of file
    gives every earlier frame's mono samples, in order.
  */
  lemma {:induction false} DecodeOutcome(steps: seq<NextFrame>, i: nat)
    requires EndsWithError(steps) && ChannelsFit(steps) && i < |steps|
    ensures var k := FirstStop(steps, i);
      DecodeFrom(steps, i) ==
        if steps[k].Frame? then Err(InvalidChannels)
        else if steps[k].err != Eof then Err(Decoder(steps[k].err))
        else Ok(MonoOf(steps[i..k]))
    decreases |steps| - i
  {
    var k := FirstStop(steps, i);
    if GoodFrame(steps[i]) {
      DecodeOutcome(steps, i + 1);
      assert FirstStop(steps, i + 1) == k;
      assert steps[i..k][1..] == steps[i + 1..k];
    } else {
      assert steps[i..k] == [];
    }
  }

  /** Each good frame contributes |data| / channels samples to the output. */
  lemma {:induction false} MonoOfLength(frames: seq<NextFrame>)
    requires forall f | f in frames :: GoodFrame(f)
    ensures |MonoOf(frames)| == MonoCount(frames)
    decreases |frames|
  {
    if frames != [] {
      var f := frames[0];
      assert f in frames;
      MonoOfLength(frames[1..]);
      DownmixShape(f.data, f.channels);
    }
  }
}
