/**
  The fingerprint engine: a decoded sample stream is cut into windows of
  FftWindowSize samples, every window is turned into a magnitude spectrum,
  the loudest bin of each frequency band is picked, and the band peaks are
  packed into one fuzz-tolerant integer.

  The Fourier transform is not modelled: a window's magnitude spectrum
  (the `hypot(re, im)` of every bin) is given by the `spectrum` parameter.
*/
module Fingerprint {

  /** Number of samples in one analysis window. */
  const FftWindowSize: nat := 4096

  /** Upper bin of every band: band i holds the bins in (FreqBins[i-1], FreqBins[i]]. */
  const FreqBins: seq<nat> := [32, 40, 80, 120, 180, 320]

  /** Band peaks are rounded down to a multiple of this before encoding. */
  const FuzzFactor: nat := 2

  const BandCount: nat := 6
  const FirstBin: nat := 32
  const LastBin: nat := 320

  // ---------------------------------------------------------------------
  // Encoding of the band peaks
  // ---------------------------------------------------------------------

  /** `x - x % FUZZ_FACTOR`: x rounded down to a multiple of the fuzz factor. */
  function Fuzz(x: nat): nat
  {
    x - x % FuzzFactor
  }

  /**
    The fingerprint of a vector of band peaks: bands 0 to 4, each fuzzed,
    weighted by 1, 10^2, 10^5, 10^8 and 10^10. Entries from index 5 on are
    not looked at.
  */
  function Hash(arr: seq<nat>): nat
    requires |arr| >= 5
  {
    Fuzz(arr[4]) * 10_000_000_000
    + Fuzz(arr[3]) * 100_000_000
    + Fuzz(arr[2]) * 100_000
    + Fuzz(arr[1]) * 100
    + Fuzz(arr[0])
  }

  /** The five fuzzed band peaks a fingerprint is made of. */
  function Quantized(arr: seq<nat>): (q: seq<nat>)
    requires |arr| >= 5
    ensures |q| == 5
    ensures forall i :: 0 <= i < 5 ==> q[i] == Fuzz(arr[i])
  {
    [Fuzz(arr[0]), Fuzz(arr[1]), Fuzz(arr[2]), Fuzz(arr[3]), Fuzz(arr[4])]
  }

  /**
    Reads the five fuzzed band peaks back out of a fingerprint. Band 3 may
    reach 120 and so spills into the digits of band 4; both are even, so
    the two are still told apart modulo 200.
  */
  function Unhash(h: nat): seq<nat>
  {
    var high := h / 100_000_000;
    [h % 100, (h / 100) % 1000, (h / 100_000) % 1000, high % 200, high / 200 * 2]
  }

  /** A record vector the band scan can produce: every entry 0 or a bin of its band. */
  ghost predicate ValidRecords(r: seq<nat>)
  {
    |r| == BandCount &&
    forall i :: 0 <= i < BandCount ==> r[i] == 0 || BandLo(i) <= r[i] <= BandHi(i)
  }

  /** Division and remainder by k undo `a * k + b` when b < k. */
  lemma DivModUnique(a: nat, b: nat, k: nat)
    requires 0 <= b < k
    ensures (a * k + b) / k == a && (a * k + b) % k == b
  {
    var n := a * k + b;
    var q, m := n / k, n % k;
    assert n == q * k + m && 0 <= m < k;
    if q < a {
      MulLeq(q + 1, a, k);
    } else if q > a {
      MulLeq(a + 1, q, k);
    }
  }

  lemma MulLeq(x: nat, y: nat, k: nat)
    requires x <= y
    ensures x * k <= y * k
  {
  }

  /** Unhash inverts the positional encoding of five peaks within their band limits. */
  lemma UnhashDigits(q0: nat, q1: nat, q2: nat, q3: nat, q4: nat)
    requires q0 <= 32 && q1 <= 40 && q2 <= 80 && q3 <= 120 && q4 <= 180
    requires q3 % 2 == 0 && q4 % 2 == 0
    ensures Unhash(q4 * 10_000_000_000 + q3 * 100_000_000 + q2 * 100_000 + q1 * 100 + q0)
         == [q0, q1, q2, q3, q4]
  {
    var high := q4 * 100 + q3;
    var h := q4 * 10_000_000_000 + q3 * 100_000_000 + q2 * 100_000 + q1 * 100 + q0;
    assert h / 100_000_000 == high by {
      assert h == high * 100_000_000 + (q2 * 100_000 + q1 * 100 + q0);
      DivModUnique(high, q2 * 100_000 + q1 * 100 + q0, 100_000_000);
    }
    assert h % 100 == q0 && h / 100 == (high * 1000 + q2) * 1000 + q1 by {
      assert h == ((high * 1000 + q2) * 1000 + q1) * 100 + q0;
      DivModUnique((high * 1000 + q2) * 1000 + q1, q0, 100);
    }
    assert (h / 100) % 1000 == q1 by {
      DivModUnique(high * 1000 + q2, q1, 1000);
    }
    assert (h / 100_000) % 1000 == q2 by {
      assert h == (high * 1000 + q2) * 100_000 + (q1 * 100 + q0);
      DivModUnique(high * 1000 + q2, q1 * 100 + q0, 100_000);
      DivModUnique(high, q2, 1000);
    }
    assert high % 200 == q3 && high / 200 * 2 == q4 by {
      assert high == (q4 / 2) * 200 + q3;
      DivModUnique(q4 / 2, q3, 200);
    }
  }

  /** The hash of valid records decodes back to their fuzzed values. */
  lemma HashRoundTrip(r: seq<nat>)
    requires ValidRecords(r)
    ensures Unhash(Hash(r)) == Quantized(r)
  {
    var q := Quantized(r);
    assert q[0] <= 32 && q[1] <= 40 && q[2] <= 80 && q[3] <= 120 && q[4] <= 180;
    UnhashDigits(q[0], q[1], q[2], q[3], q[4]);
  }

  /** Fuzz tolerance: peaks that agree after division by the fuzz factor give the same fingerprint. */
  lemma HashFuzzTolerant(a: seq<nat>, b: seq<nat>)
    requires |a| >= 5 && |b| >= 5
    requires forall i :: 0 <= i < 5 ==> a[i] / FuzzFactor == b[i] / FuzzFactor
    ensures Hash(a) == Hash(b)
  {
    forall i | 0 <= i < 5 ensures Fuzz(a[i]) == Fuzz(b[i]) {
      assert Fuzz(a[i]) == a[i] / 2 * 2;
      assert Fuzz(b[i]) == b[i] / 2 * 2;
    }
  }

  /** For record vectors the band scan can produce, equal fingerprints mean equal fuzzed peaks, and back. */
  lemma HashCollidesIffSameFuzzedPeaks(a: seq<nat>, b: seq<nat>)
    requires ValidRecords(a) && ValidRecords(b)
    ensures Hash(a) == Hash(b) <==> Quantized(a) == Quantized(b)
  {
    if Hash(a) == Hash(b) {
      HashRoundTrip(a);
      HashRoundTrip(b);
    }
  }

  /** `hash` looks at bands 0 to 4 only; the 180-320 band and anything later is ignored. */
  lemma HashIgnoresTail(a: seq<nat>, b: seq<nat>)
    requires |a| >= 5 && |b| >= 5 && a[..5] == b[..5]
    ensures Hash(a) == Hash(b)
  {
    assert forall i :: 0 <= i < 5 ==> a[i] == a[..5][i] == b[..5][i] == b[i];
  }

  /** The unit test's vector and the vector with two bands moved by more than the fuzz factor. */
  lemma HashTestVector()
    ensures Hash([32, 45, 100, 140, 235, 300]) == 2354010004432
    ensures Hash([32, 45, 100, 140, 235, 300]) != Hash([33, 45, 100, 145, 235, 300])
  {
  }

  /**
    Tolerance is by rounding down, not by distance: peaks 33 and 34 differ
    by less than the fuzz factor but round to 32 and 34.
  */
  lemma NearbyPeaksMayDiffer()
    ensures Hash([33, 40, 80, 120, 180]) != Hash([34, 40, 80, 120, 180])
  {
  }

  /**
    The range the tests check: when band 4 has a peak, the fingerprint's
    decimal logarithm lies strictly between 12 and 13; when it has none,
    the fingerprint is below 10^12.
  */
  lemma HashRange(r: seq<nat>)
    requires ValidRecords(r)
    ensures r[4] != 0 ==> 1_000_000_000_000 < Hash(r) < 10_000_000_000_000
    ensures r[4] == 0 ==> Hash(r) < 1_000_000_000_000
  {
    var q := Quantized(r);
    assert q[0] <= 32 && q[1] <= 40 && q[2] <= 80 && q[3] <= 120 && q[4] <= 180;
    assert r[4] != 0 ==> q[4] >= 120;
  }

  // ---------------------------------------------------------------------
  // Band assignment and peak picking
  // ---------------------------------------------------------------------

  /** Lowest bin of band i. Band 0 holds only bin 32, since the scan starts there. */
  function BandLo(i: nat): nat
    requires i < BandCount
  {
    if i == 0 then FreqBins[0] else FreqBins[i - 1] + 1
  }

  /** Highest bin of band i. */
  function BandHi(i: nat): nat
    requires i < BandCount
  {
    FreqBins[i]
  }

  /** The search of the inner `while`, started at band i. */
  function BandFrom(bin: nat, i: nat): (k: nat)
    requires i < BandCount && bin <= LastBin
    requires forall j :: 0 <= j < i ==> FreqBins[j] < bin
    ensures i <= k < BandCount && bin <= FreqBins[k]
    ensures forall j :: 0 <= j < k ==> FreqBins[j] < bin
    decreases BandCount - i
  {
    if bin <= FreqBins[i] then i else BandFrom(bin, i + 1)
  }

  /** The band a bin is assigned to: the first band whose upper bin is at least `bin`. */
  function BandOf(bin: nat): (k: nat)
    requires bin <= LastBin
  {
    BandFrom(bin, 0)
  }

  /** Every scanned bin falls in exactly one band, and BandOf names it. */
  lemma BandOfIsBand(bin: nat, i: nat)
    requires FirstBin <= bin <= LastBin && i < BandCount
    ensures BandOf(bin) == i <==> BandLo(i) <= bin <= BandHi(i)
  {
  }

  /** Where the inner `while` stops, FreqBins[k] >= bin for the first time, is the band BandOf names. */
  lemma WhileFindsBand(bin: nat, k: nat)
    requires FirstBin <= bin <= LastBin && k < BandCount
    requires bin <= FreqBins[k] && forall j :: 0 <= j < k ==> FreqBins[j] < bin
    ensures k == BandOf(bin)
  {
  }

  /** The running maximum of one band: its score and the bin that set it (0 for none). */
  datatype BandPeak = BandPeak(score: real, point: nat)

  /**
    The state of one band's running maximum after the bins lo..hi-1 were
    scanned, starting from score 0.0 and point 0; a bin replaces the record
    only when strictly louder.
  */
  function Peak(mags: seq<real>, lo: nat, hi: nat): BandPeak
    requires lo <= hi <= |mags|
    decreases hi - lo
  {
    if hi == lo then BandPeak(0.0, 0)
    else
      var p := Peak(mags, lo, hi - 1);
      if mags[hi - 1] > p.score then BandPeak(mags[hi - 1], hi - 1) else p
  }

  /**
    What the running maximum finds: the first bin holding the largest
    magnitude of lo..hi-1 and that magnitude when it is positive, and
    point 0 with score 0.0 exactly when no magnitude exceeds 0.
  */
  lemma {:induction false} PeakSpec(mags: seq<real>, lo: nat, hi: nat)
    requires 0 < lo <= hi <= |mags|
    ensures var p := Peak(mags, lo, hi);
      && (p.point == 0 || lo <= p.point < hi)
      && (p.point == 0 <==> forall c :: lo <= c < hi ==> mags[c] <= 0.0)
      && (p.point == 0 ==> p.score == 0.0)
      && (p.point != 0 ==> 0.0 < p.score == mags[p.point])
      && (forall c :: lo <= c < hi ==> mags[c] <= p.score)
      && (forall c :: lo <= c < p.point ==> mags[c] < p.score)
    decreases hi - lo
  {
    if hi > lo {
      PeakSpec(mags, lo, hi - 1);
    }
  }

  /** The record point of band i after the whole scan. */
  function BandRecord(mags: seq<real>, i: nat): nat
    requires |mags| > LastBin && i < BandCount
  {
    Peak(mags, BandLo(i), BandHi(i) + 1).point
  }

  /** `record_points` after the whole scan. */
  function Records(mags: seq<real>): (r: seq<nat>)
    requires |mags| > LastBin
    ensures |r| == BandCount
  {
    seq(BandCount, i requires 0 <= i < BandCount => BandRecord(mags, i))
  }

  /**
    What the scan leaves in `record_points[i]`: 0, or the first bin of band i
    holding the band's largest magnitude, which is then positive; 0 exactly
    when no magnitude in the band exceeds 0.
  */
  lemma RecordsSpec(mags: seq<real>, i: nat)
    requires |mags| > LastBin && i < BandCount
    ensures ValidRecords(Records(mags))
    ensures i == 0 ==> Records(mags)[0] in {0, FirstBin}
    ensures var r := Records(mags)[i];
      && (r == 0 <==> forall c :: BandLo(i) <= c <= BandHi(i) ==> mags[c] <= 0.0)
      && (r != 0 ==> BandLo(i) <= r <= BandHi(i) && 0.0 < mags[r])
      && (r != 0 ==> forall c :: BandLo(i) <= c <= BandHi(i) ==> mags[c] <= mags[r])
      && (r != 0 ==> forall c :: BandLo(i) <= c < r ==> mags[c] < mags[r])
  {
    var r := Records(mags);
    forall j | 0 <= j < BandCount ensures r[j] == 0 || BandLo(j) <= r[j] <= BandHi(j) {
      PeakSpec(mags, BandLo(j), BandHi(j) + 1);
    }
    PeakSpec(mags, BandLo(i), BandHi(i) + 1);
  }

  /** How far band i's scan has got when the outer loop is about to look at `bin`. */
  function Scanned(i: nat, bin: nat): nat
    requires i < BandCount
  {
    if bin < BandLo(i) then BandLo(i) else if bin > BandHi(i) + 1 then BandHi(i) + 1 else bin
  }

  /**
    Looking at `bin`, which falls in band k, advances band k's scan by one
    bin and leaves every other band's scan where it was.
  */
  lemma ScannedStep(bin: nat, k: nat)
    requires FirstBin <= bin <= LastBin && k < BandCount
    requires bin <= FreqBins[k] && forall j :: 0 <= j < k ==> FreqBins[j] < bin
    ensures Scanned(k, bin) == bin && Scanned(k, bin + 1) == bin + 1
    ensures forall i :: 0 <= i < BandCount && i != k ==> Scanned(i, bin + 1) == Scanned(i, bin)
  {
    assert k > 0 ==> FreqBins[k - 1] < bin;
    forall i | 0 <= i < BandCount && i != k
      ensures Scanned(i, bin + 1) == Scanned(i, bin)
    {
      if i < k {
        assert FreqBins[i] < bin;
      } else {
        assert FreqBins[k] <= FreqBins[i - 1];
      }
    }
  }

  /**
    `calculate_fingerprint_hash`: scan the bins FreqBins[0]..=FreqBins[5]
    of one window's magnitudes, keep per band the first strictly loudest bin,
    and encode the record points.
  */
  method CalculateFingerprintHash(mags: seq<real>) returns (h: nat)
    requires |mags| > LastBin
    ensures h == Hash(Records(mags))
  {
    var highScores := new real[BandCount](_ => 0.0);
    var recordPoints := new nat[BandCount](_ => 0);
    for bin := FreqBins[0] to FreqBins[BandCount - 1] + 1
      invariant forall i :: 0 <= i < BandCount ==>
        BandPeak(highScores[i], recordPoints[i]) == Peak(mags, BandLo(i), Scanned(i, bin))
    {
      var magnitude := mags[bin];
      var binIdx := 0;
      while FreqBins[binIdx] < bin
        invariant 0 <= binIdx < BandCount
        invariant forall j :: 0 <= j < binIdx ==> FreqBins[j] < bin
        decreases BandCount - binIdx
      {
        binIdx := binIdx + 1;
      }
      WhileFindsBand(bin, binIdx);
      ScannedStep(bin, binIdx);
      if magnitude > highScores[binIdx] {
        highScores[binIdx] := magnitude;
        recordPoints[binIdx] := bin;
      }
    }
    assert recordPoints[..] == Records(mags);
    h := Hash(recordPoints[..]);
  }

  // ---------------------------------------------------------------------
  // Windowing
  // ---------------------------------------------------------------------

  /** The transform returns one magnitude per sample of a full window. */
  ghost predicate SpectrumSized(spectrum: seq<real> -> seq<real>)
  {
    forall w: seq<real> {:trigger spectrum(w)} :: |w| == FftWindowSize ==> |spectrum(w)| == FftWindowSize
  }

  /** Min of two naturals. */
  function Min(a: nat, b: nat): nat
  {
    if a <= b then a else b
  }

  /** The fingerprint of every full window of the stream, in window order. */
  function WindowHashes(stream: seq<real>, spectrum: seq<real> -> seq<real>): (hs: seq<nat>)
    requires SpectrumSized(spectrum)
    ensures |hs| == |stream| / FftWindowSize
  {
    seq(|stream| / FftWindowSize,
        k requires 0 <= k < |stream| / FftWindowSize =>
          Hash(Records(spectrum(stream[k * FftWindowSize .. (k + 1) * FftWindowSize]))))
  }

  /**
    Chunk k of a stream of length len, as `par_chunks` cuts it, starts
    inside the stream, and it is a full window exactly when k < len / W.
  */
  lemma ChunkBounds(len: nat, k: nat)
    requires k < (len + FftWindowSize - 1) / FftWindowSize
    ensures k * FftWindowSize < len
    ensures k < len / FftWindowSize <==> (k + 1) * FftWindowSize <= len
    ensures len / FftWindowSize <= (len + FftWindowSize - 1) / FftWindowSize
  {
  }

  /**
    `calc_fingerprint_collection`: one fingerprint per full window, the
    trailing partial window dropped. Windows are hashed by parallel workers
    that push under a lock, so the order is not fixed: each hash is put at
    an arbitrary place, and only the multiset of hashes is promised.
  */
  method CalcFingerprintCollection(stream: seq<real>, spectrum: seq<real> -> seq<real>)
    returns (hashes: seq<nat>)
    requires SpectrumSized(spectrum)
    ensures |hashes| == |stream| / FftWindowSize
    ensures multiset(hashes) == multiset(WindowHashes(stream, spectrum))
  {
    var full := |stream| / FftWindowSize;
    var chunks := (|stream| + FftWindowSize - 1) / FftWindowSize;
    ghost var expected := WindowHashes(stream, spectrum);
    hashes := [];
    for k := 0 to chunks
      invariant full <= chunks
      invariant |hashes| == Min(k, full)
      invariant multiset(hashes) == multiset(expected[..Min(k, full)])
    {
      ChunkBounds(|stream|, k);
      var chunk := stream[k * FftWindowSize .. Min((k + 1) * FftWindowSize, |stream|)];
      if |chunk| >= FftWindowSize {
        assert k < full && chunk == stream[k * FftWindowSize .. (k + 1) * FftWindowSize];
        var h := CalculateFingerprintHash(spectrum(chunk));
        assert h == expected[k];
        var at :| 0 <= at <= |hashes|;
        InsertAnywhere(hashes, at, h);
        PrefixGrows(expected, k);
        hashes := hashes[..at] + [h] + hashes[at..];
      } else {
        assert k >= full;
      }
    }
    assert expected[..full] == expected;
  }

  /** A prefix one longer is the prefix followed by the next element. */
  lemma PrefixGrows(s: seq<nat>, k: nat)
    requires k < |s|
    ensures s[..k + 1] == s[..k] + [s[k]]
  {
  }

  /** Putting a value anywhere in a sequence adds it to the multiset of its elements. */
  lemma InsertAnywhere(hs: seq<nat>, at: nat, h: nat)
    requires at <= |hs|
    ensures |hs[..at] + [h] + hs[at..]| == |hs| + 1
    ensures multiset(hs[..at] + [h] + hs[at..]) == multiset(hs) + multiset{h}
  {
    assert hs == hs[..at] + hs[at..];
  }

  /** A stream shorter than one window gives no fingerprint (and no error). */
  lemma ShortStreamHasNoFingerprints(stream: seq<real>, spectrum: seq<real> -> seq<real>)
    requires SpectrumSized(spectrum) && |stream| < FftWindowSize
    ensures WindowHashes(stream, spectrum) == []
  {
  }

  /** Every fingerprint of a stream lies below 10^13, and above 10^12 when its window has a band-4 peak. */
  lemma {:induction false} WindowHashRange(stream: seq<real>, spectrum: seq<real> -> seq<real>, k: nat)
    requires SpectrumSized(spectrum) && k < |stream| / FftWindowSize
    ensures var mags := spectrum(stream[k * FftWindowSize .. (k + 1) * FftWindowSize]);
      && |mags| > LastBin
      && WindowHashes(stream, spectrum)[k] < 10_000_000_000_000
      && (Records(mags)[4] != 0 ==> 1_000_000_000_000 < WindowHashes(stream, spectrum)[k])
  {
    var mags := spectrum(stream[k * FftWindowSize .. (k + 1) * FftWindowSize]);
    RecordsSpec(mags, 0);
    HashRange(Records(mags));
  }
}
