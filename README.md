# clatter_rattles_rs core, modelled in Dafny

This project models the core of an audio-fingerprinting library in Dafny: a decoded sample stream becomes fuzz-tolerant integer fingerprints, and a repository indexes songs by fingerprint and counts matches for a query. The project proves properties of that model.

There are three parts.

- **Fingerprint engine** (`fingerprint.dfy`, module `Fingerprint`)
  - The stream is cut into windows of 4096 samples; a trailing partial window is dropped.
  - Every spectral bin 32..=320 of a window goes to the first band of `[32, 40, 80, 120, 180, 320]` whose upper bin is at least the bin.
  - Each band keeps the first bin that is strictly louder than its running maximum, which starts at 0.
  - Bands 0 to 4 are rounded down to even numbers (fuzz factor 2) and packed into one integer with weights 1, 10^2, 10^5, 10^8 and 10^10.
- **Match repository** (`repository.dfy`, module `Repository`)
  - The class `RedisHelper` holds the Redis contents as a map from fingerprint to a set of song names.
  - `Store` adds the song under every fingerprint in one all-or-nothing transaction.
  - `FindMatches` tallies, for every song, how many query positions list it.
- **MP3 decoding to mono** (`helpers.dfy`, module `Helpers`)
  - The frame loop of `decode_mp3` runs over a given sequence of decoder results.
  - Every group of `channels` interleaved `i16` samples becomes one sample: the sum of `x / channels`, with Rust's truncating `i16` division.

`results.dfy` (module `Results`) holds the shared `Result` and `Outcome` datatypes.

The imperative parts of the source stay imperative here.
- `calculate_fingerprint_hash` is a method. It updates the two band arrays in a `for` loop with an inner `while`. It is proved equal to the per-band running-maximum function `Peak`.
- `find_matches` is a method with the nested tally loop. It is proved equal to the function `TallyOf`.
- `decode_mp3` is a method with the frame loop. It is proved equal to the function `DecodeFrom`.

Lemmas then state what those functions mean: first maximum per band, votes equal to matching positions, and output equal to the concatenation of the frames' downmixes.

The model follows the code. Some of its behaviour is worth stating plainly.

- **Mono mix.** The doc comment of `decode_mp3` (src/helpers/mod.rs:9) calls the mono mix a mean of the channels.
  - The code sums the truncated quotients instead. `StereoMixIsNotTheMean` shows that the stereo pair (1, 1) mixes to 0.
  - `GroupSumNearSum` bounds how far the mix can be from the mean.
- **Fuzz tolerance.** Tolerance is by rounding down, not by distance.
  - Two inputs hash equal when their quotients by the fuzz factor agree (`HashFuzzTolerant`).
  - Peaks 33 and 34 differ by 1 but hash apart (`NearbyPeaksMayDiffer`).
  - The rounded peak is kept at its scale, not divided by the factor.
- **Band weights.** Band 3 can reach 120 × 10^8, which overlaps band 4's weight of 10^10.
  - The encoding is still injective on scan outputs, because both values are even (`Unhash`, `HashRoundTrip`).
  - Band 5 (180..320) is scanned but not hashed (`HashIgnoresTail`).
- **Window order.** Workers push fingerprints under a lock, so only the multiset of fingerprints is promised (`CalcFingerprintCollection`).
- **Best match.** The library has no best-match selection; `find_matches` returns the whole tally.

## Model

| member | source | states |
|---|---|---|
| Fingerprint.Fuzz | src/fingerprint/mod.rs:84 | `x - x % FUZZ_FACTOR`: a band peak rounded down to an even number |
| Fingerprint.Hash | src/fingerprint/mod.rs:83-89 | `hash`: the fuzzed entries 0 to 4, weighted by 1, 10^2, 10^5, 10^8 and 10^10 and summed; needs at least five entries; characterised by the lemmas below |
| Fingerprint.HashRoundTrip | src/fingerprint/mod.rs:83-89 | for record vectors the scan can produce, `Unhash` recovers the five fuzzed band peaks from the fingerprint |
| Fingerprint.HashCollidesIffSameFuzzedPeaks | src/fingerprint/mod.rs:83-89 | for such vectors, two fingerprints are equal if and only if the five fuzzed band peaks are equal |
| Fingerprint.HashFuzzTolerant | src/fingerprint/mod.rs:84-88 | inputs that agree on `x / FUZZ_FACTOR` at indices 0..4 have equal fingerprints |
| Fingerprint.NearbyPeaksMayDiffer | src/fingerprint/mod.rs:84-88 | peaks 33 and 34, closer than the fuzz factor, still give different fingerprints |
| Fingerprint.HashIgnoresTail | src/fingerprint/mod.rs:84-88 | the fingerprint depends only on indices 0..4; band 5 and later entries are ignored |
| Fingerprint.HashTestVector | src/fingerprint/mod.rs:96-99 | the unit test's vector hashes to 2354010004432, and moving 32 to 33 and 140 to 145 changes the fingerprint |
| Fingerprint.HashRange | src/fingerprint/mod.rs:110-113 | with a band-4 peak, the fingerprint lies strictly between 10^12 and 10^13; without one it is below 10^12 |
| Fingerprint.BandFrom | src/fingerprint/mod.rs:68-71 | the inner `while` stops at the smallest band index whose upper bin is at least the bin, always below 6 |
| Fingerprint.BandOfIsBand | src/fingerprint/mod.rs:10 | every bin 32..=320 is assigned to band i exactly when it lies in (FREQ_BINS[i-1], FREQ_BINS[i]] (band 0: bin 32) |
| Fingerprint.Peak | src/fingerprint/mod.rs:62-63 | one band's `high_scores`/`record_points` pair after scanning bins lo..hi-1 from (0.0, 0), replaced only by a strictly larger magnitude; characterised by `PeakSpec` |
| Fingerprint.PeakSpec | src/fingerprint/mod.rs:73-76 | the running maximum started at 0 holds the first bin with the largest magnitude when that is positive, and 0 otherwise |
| Fingerprint.Records | src/fingerprint/mod.rs:65-77 | the final `record_points`: six entries, entry i being band i's running-maximum point over its bins; characterised by `RecordsSpec` |
| Fingerprint.RecordsSpec | src/fingerprint/mod.rs:62-77 | each final record point is 0 or a bin of its band (band 0: only 32); if non-zero, it is the first bin with the band's largest magnitude, which is positive; it is 0 exactly when no magnitude in the band exceeds 0 |
| Fingerprint.WhileFindsBand | src/fingerprint/mod.rs:68-71 | where the method's inner `while` stops is the band `BandOf` names, so the array scan updates exactly that band |
| Fingerprint.ScannedStep | src/fingerprint/mod.rs:65-71 | looking at one bin advances only its own band's scan |
| Fingerprint.CalculateFingerprintHash | src/fingerprint/mod.rs:61-80 | the array-updating scan returns the hash of the per-band first maxima |
| Fingerprint.WindowHashes | src/fingerprint/mod.rs:46-48 | one fingerprint per full window: `len / 4096` of them |
| Fingerprint.ChunkBounds | src/fingerprint/mod.rs:46-48 | every chunk starts inside the stream, and chunk k is a full window exactly when k < len / 4096 |
| Fingerprint.CalcFingerprintCollection | src/fingerprint/mod.rs:40-57 | returns `len / 4096` fingerprints, a permutation of the per-window fingerprints, with the partial tail dropped |
| Fingerprint.ShortStreamHasNoFingerprints | src/fingerprint/mod.rs:48 | a stream shorter than one window yields no fingerprint and no error |
| Fingerprint.WindowHashRange | src/lib.rs:19-24 | every fingerprint of a stream is below 10^13, and above 10^12 when its window has a band-4 peak |
| Repository.Members | src/data/redis_actions.rs:43 | `SMEMBERS`: the song set under a key, empty for a key that is absent |
| Repository.SAdd | src/data/redis_actions.rs:30 | `SADD`: the key gets the song added to its set, and is created if absent |
| Repository.StoreAll | src/data/redis_actions.rs:29-31 | the queued `SADD`s of one `store` call applied in order; characterised by `StoreAllSpec` |
| Repository.StoreAllSpec | src/data/mod.rs:6-15 | after the set-adds, every listed key holds the song, absent keys are created, and no other key changes |
| Repository.StoreIdempotent | src/data/redis_actions.rs:30 | storing the same fingerprints and song twice leaves the index as after once |
| Repository.RedisHelper.Store | src/data/redis_actions.rs:27-35 | on success the index is the old one with all set-adds applied; on failure it is unchanged |
| Repository.AddVotes | src/data/redis_actions.rs:44-53 | one set's pass over the tally: one more vote for each of its songs, with new songs inserted at 1 |
| Repository.TallyOf | src/data/redis_actions.rs:41-54 | the tally of a query: the sets of the query positions counted in order from an empty map; characterised by `TallyCountsMatches` and `TallySum` |
| Repository.RedisHelper.FindMatches | src/data/redis_actions.rs:37-56 | on success returns exactly the tally of the query over the current index, which it does not change; otherwise an error and no partial tally |
| Repository.CountSong | src/data/redis_actions.rs:45-51 | the `get_mut`/`insert` update adds one vote for the song to the tally of the songs seen so far |
| Repository.TallyOfGrows | src/data/redis_actions.rs:42-43 | each query position adds its fingerprint's set to the tally |
| Repository.VotesAdded | src/data/redis_actions.rs:45-51 | one set's pass adds 1 to each of its songs and leaves other songs' votes alone |
| Repository.TallyCountsMatches | src/data/mod.rs:17-18 | a song's count is the number of query positions (duplicates included) whose set holds it; absent songs have none, and present songs have at least one |
| Repository.SumVotesAdd | src/data/redis_actions.rs:44-53 | counting a set of n songs adds n to the sum of all votes |
| Repository.TallySum | src/data/redis_actions.rs:42-54 | the votes of a tally add up to the sizes of the queried sets |
| Repository.StoreThenFind | src/data/mod.rs:6-18 | after storing a song under some fingerprints, querying them gives the song one vote per position |
| Repository.TwoSongsTally | src/data/redis_actions.rs:65-97 | two songs stored in turn: querying the second song's keys gives it one vote per key, and the first one vote per key it shares |
| Repository.SharedKeys | src/data/redis_actions.rs:65-72 | the test's two key lists share exactly their last seven positions |
| Repository.SharedKeysScenario | src/data/redis_actions.rs:65-97 | the repository test's expectation: song 1 gets 7 votes and song 2 gets 10 |
| Repository.RangesScenario | src/data/redis_actions.rs:101-139 | keys 0..n1 and 0..n2 stored under two songs give n1 and n2 votes when 0..n2 is queried |
| Repository.BenchmarkScenario | src/data/redis_actions.rs:101-139 | the benchmark test's expectation: 20000 and 30000 votes |
| Helpers.TruncDiv | src/helpers/mod.rs:29 | `x / channels as i16`: `i16` division truncating toward zero; characterised by `TruncDivSpec` |
| Helpers.TruncDivSpec | src/helpers/mod.rs:29 | `x / channels` truncates toward zero and lies in [-(32768 / c), 32767 / c] |
| Helpers.GroupSum | src/helpers/mod.rs:29 | the `i16` running sum of a group's quotients never overflows: it stays within the group size times the quotient bounds |
| Helpers.GroupSumNearSum | src/helpers/mod.rs:27-30 | c times the mixed sample is within the group size times (c - 1) of the exact sum of the group |
| Helpers.StereoMixIsNotTheMean | src/helpers/mod.rs:9 | the stereo pair (1, 1) mixes to 0 although its mean is 1 |
| Helpers.Downmix | src/helpers/mod.rs:27-31 | one frame's mono samples: `chunks_exact(channels)`, each whole group folded by `GroupSum`, with the partial group dropped |
| Helpers.DownmixShape | src/helpers/mod.rs:27-29 | a frame gives `len / channels` mono samples, with the partial group dropped; with one channel, the samples are unchanged |
| Helpers.DownmixPrefix | src/helpers/mod.rs:27-30 | the next mono sample of a frame is the mix of the next whole group |
| Helpers.DecodeFrame | src/helpers/mod.rs:22-31 | a frame with channels contributes its downmix in front of the rest of the run's output |
| Helpers.DecodeFrom | src/helpers/mod.rs:20-38 | the outcome of the loop from result i on: Eof gives `Ok` of nothing more, another error gives that error, a frame without channels gives the channel error, and a frame otherwise puts its downmix in front of the rest; characterised by `DecodeOutcome` |
| Helpers.DecodeMp3 | src/helpers/mod.rs:16-38 | the frame loop returns what `DecodeFrom` specifies: frames are appended in order until Eof; a channel error or another decoder error aborts |
| Helpers.FirstStop | src/helpers/mod.rs:20-36 | the first decoder result that ends the loop, with every result before it being a good frame |
| Helpers.DecodeOutcome | src/helpers/mod.rs:20-38 | at the first stopping result: a frame without channels gives the channel error; an error other than Eof gives that error; Eof gives the in-order concatenation of all earlier frames' mono samples |
| Helpers.MonoOfLength | src/helpers/mod.rs:27 | the output holds, for each frame, `len / channels` samples |

## Left out

- The Fourier transform is not modelled. This covers rustfft's `Radix4`, `Complex<f32>` and `hypot`.
  - A window's magnitude spectrum comes from a `spectrum` function parameter, required to give 4096 values for a 4096-sample window.
  - Magnitudes are `real`s, not `f32`. Float rounding and NaN are not modelled.
- Parallelism is not modelled: rayon's `par_chunks` and the `Arc<Mutex<Vec>>`. Each window's fingerprint is inserted at an arbitrary position, so the result is stated up to permutation.
- `FingerprintHandle::new` is not modelled. `calc_fingerprint_collection` always returns `Ok`, so the model returns the sequence itself.
- The Redis connection, `RedisHelper::new`, network round trips, and the WATCH/retry behaviour of `redis::transaction` are not modelled.
  - The constructor takes the server's contents.
  - Any server or connection failure is a nondeterministic error outcome of each call.
  - Concurrent writers are not modelled.
- Repository.RedisHelper.Store: the source passes the fingerprints as the keys `redis::transaction` watches. Redis refuses a `WATCH` with no keys, so `store` with an empty list fails there. The model may instead pass and leave the index unchanged.
- Repository.RedisHelper.FindMatches: a failure may occur at any `SMEMBERS` read, so the contract says nothing about when it fails, only that success returns the full tally.
- `minimp3::Decoder`, `File::open` and the async wrapper of `decode_mp3` are not modelled. The decoder's results are a given sequence that ends with an error result (Eof or another).
- Helpers.DecodeMp3 requires every frame to have at most 32767 channels, so that `channels as i16` is exact. A larger count wraps in Rust, and that case is not modelled.
- Helpers.DecodeMp3 returns the `i16` samples rather than `f32`, because `f32::from(i16)` is exact.
- Fingerprint.CalculateFingerprintHash takes magnitudes for at least 321 bins. The source indexes a 4096-bin FFT output, so that always holds there.
- `usize` is taken as 64 bits. Fingerprints are below 10^13, so the hash never wraps.
- The streaming listener (`src/data/stream_actions.rs`), `src/stream_client/mod.rs`, the superseded `src/redis_db/` and the network stream test in `src/lib.rs` are not part of this model.
- Timing and benchmark printing are not modelled.
