# Detect440_432 in Dafny

A verified model of `main.cpp`, a small command-line tool that decides whether a
16-bit stereo WAV recording is tuned to A440 or A432. The tool has four parts,
and each is modelled in its own module:

- **read_wav** (`wav.dfy`, module `Wav`) skips the 44-byte header. It merges each
  4-byte frame, holding two little-endian signed 16-bit channels, into the mono
  sample `((left + right) / 2.0) / 32768.0`. The file is modelled as its byte
  content.
- **apply_hamming_window** (`window.dfy`, module `Window`) scales each buffer
  entry in place by a coefficient that depends on the index and the buffer length.
- **fft** (`fft.dfy`, module `Fft`) is the recursive radix-2 Cooley-Tukey
  transform. It runs on an array of complex numbers (`complex.dfy`, module
  `ComplexNumbers`). The method is proved against the function `FftSpec`.
  `dft.dfy` (module `Dft`) proves that `FftSpec` is the discrete Fourier
  transform by its sum definition, for every power-of-two length, when the
  twiddles are powers of principal roots of unity.
- **find_dominant_frequency** (`dominant.dfy`, module `Dominant`):
  - windows the whole buffer;
  - transforms its first N entries, where N is the largest power of two not
    above the buffer length;
  - scans the lower N/2 bins for the first bin of largest magnitude;
  - converts that bin to Hz.
- **check_tuning** (`tuning.dfy`, module `Tuning`) classifies the frequency as
  A440, A432 or neither. The tolerance is ±1 Hz, inclusive.

`scale.dfy` (module `ScaleInvariance`) proves that multiplying every sample by
the same nonzero constant changes neither the dominant bin nor the frequency.
A louder, quieter or polarity-inverted recording gets the same answer. This
holds for any window coefficients and any twiddles.

Dafny has no `cos`, `polar` or `sqrt`, so they are handled as follows:

- The Hamming coefficient `0.54 - 0.46*cos(2*pi*i/(N-1))` is a parameter
  `ham(i, N)`.
- The twiddle `polar(1, -2*pi*i/N)` is a parameter `w(i, N)`.
- The magnitude `abs(z)` is the squared modulus `Norm(z)`. Because `sqrt` is
  strictly increasing and `sqrt(0) == 0`, the scan makes the same choices with
  either.
- `double` is modelled as `real`.

## Model

| member | source | states |
|---|---|---|
| Wav.Int16At | main.cpp:30-31 | the value read is congruent modulo 2^16 to the little-endian byte pair, and it is negative exactly when the top bit of the high byte is set (two's complement) |
| Wav.Int16RoundTrip | main.cpp:30-31 | reading back the two little-endian bytes of any 16-bit value gives that value |
| Wav.Int16BytesRoundTrip | main.cpp:30-31 | every byte pair is the encoding of the value read from it, so the reading is a bijection |
| Wav.MonoSample | main.cpp:33-35 | a merged sample lies in [-1, 32767/32768] |
| Wav.MonoSampleOfFrame | main.cpp:30-35 | a frame made of the bytes of channel values l and r becomes ((l + r) / 2) / 32768 |
| Wav.FrameCount | main.cpp:22-28 | no frames below 44 bytes; otherwise the largest c with 44 + 4c <= len, so a trailing partial frame is not counted |
| Wav.ReadSamples | main.cpp:21-36 | yields (len - 44) / 4 samples (none below 44 bytes, partial trailing frame dropped); sample i is the merge of the frame at 44 + 4i; every sample is in [-1, 1) |
| Window.Windowed | main.cpp:45-46 | windowing keeps the length of the buffer |
| Window.ApplyHammingWindow | main.cpp:43-47 | entry i becomes its old value times ham(i, N), for every i; the length is unchanged; lengths 0 and N >= 2 are accepted |
| Window.WindowedAt | main.cpp:77-86 | after the truncation, entry i carries the coefficient for the whole buffer length M, not for the segment length N |
| Fft.Evens | main.cpp:55-59 | the even-indexed half has N/2 entries, as `even(N / 2)` is allocated |
| Fft.Odds | main.cpp:55-59 | the odd-indexed half has N/2 entries, as `odd(N / 2)` is allocated |
| Fft.Combine | main.cpp:64-68 | the butterfly combination has the length of the buffer it overwrites |
| Fft.FftSpec | main.cpp:51-69 | the transform keeps the length and returns buffers of length 0 or 1 unchanged |
| Fft.Butterfly | main.cpp:55-68 | for i < N/2, output i is E[i] + W(i,N)*O[i] and output i + N/2 is E[i] - W(i,N)*O[i], with E and O the transforms of the even- and odd-indexed entries |
| Fft.Fft | main.cpp:51-69 | the array ends up holding FftSpec of its old content |
| Fft.SplitHalves | main.cpp:55-59 | the two fresh, distinct buffers hold the even- and odd-indexed entries |
| Fft.CombineInPlace | main.cpp:64-68 | the array ends up holding the butterfly combination of the two transformed halves |
| Dft.DftLow | main.cpp:64-66 | the DFT by its definition obeys the lower butterfly equation (Danielson-Lanczos) |
| Dft.DftHigh | main.cpp:64-67 | the DFT by its definition obeys the upper butterfly equation, through r^(N/2) = -1 |
| Dft.CombineOfDftsIsDft | main.cpp:61-68 | combining the DFTs of the two halves gives the DFT of the whole buffer |
| Dft.FftIsDft | main.cpp:51-69 | for every power-of-two length, with twiddles that are powers of principal roots of unity, the transform equals the DFT sum X[k] = sum of x[j] * r^(jk) |
| ComplexNumbers.Norm | main.cpp:95 | the magnitude is never negative |
| Dominant.Log2Floor | main.cpp:74 | floor(log2(m)) is the k with 2^k <= m < 2^(k+1) |
| Dominant.SegmentLength | main.cpp:74 | the segment length N is a power of two with N <= M < 2N |
| Dominant.SegmentLengthIsLargest | main.cpp:74 | no power of two that fits in the buffer is larger than N |
| Dominant.CopyToComplex | main.cpp:81-86 | the fresh array holds the first N windowed samples as complex numbers, that is `ToComplex` of them: real part the sample, imaginary part zero |
| Dominant.Norms | main.cpp:94-95 | each bin's magnitude is the norm of that bin, and is non-negative |
| Dominant.RunningMax | main.cpp:92-100 | the running maximum starting from 0.0 is non-negative, bounds every magnitude scanned, and is 0.0 or one of them |
| Dominant.PeakIndex | main.cpp:92-100 | the index kept by the scan lies inside the scanned range, and is 0 for an empty range |
| Dominant.PeakIndexIsFirstMax | main.cpp:92-100 | on magnitudes the kept index is the lowest index of maximal magnitude (ties keep the earlier index, all zeros give 0), no other index is, and its magnitude is the running maximum |
| Dominant.ScanMagnitudes | main.cpp:92-100 | the loop's index is the scan's PeakIndex, and the first maximum of the scanned magnitudes |
| Dominant.BinToHz | main.cpp:103 | the converted frequency is never negative, even for a negative rate, because the product is taken in 64-bit size_t; and result times N is below 2^64 |
| Dominant.BinToHzRange | main.cpp:103 | for a non-negative int rate nothing wraps: the result is index*rate/N, is at least 0, and is below rate/2 when the rate is positive |
| Dominant.DominantBin | main.cpp:72-100 | the chosen bin is below N/2 |
| Dominant.DominantFrequency | main.cpp:72-104 | for a non-negative rate the returned frequency is bin * rate / N; for a positive rate it lies in [0, rate/2) |
| Dominant.DominantFrequencyIsPeakOfDft | main.cpp:72-104 | with root-of-unity twiddles the chosen bin is the first bin in [0, N/2) of largest DFT magnitude of the windowed segment; the result is bin*rate/N, in [0, rate/2) |
| Dominant.FindDominantFrequency | main.cpp:72-104 | the method returns the frequency of the first peak bin of the transformed, windowed segment |
| ScaleInvariance.WindowedScale | main.cpp:43-47 | windowing c times a buffer gives c times the windowed buffer |
| ScaleInvariance.ToComplexScale | main.cpp:84-86 | copying c times the samples into complex numbers gives c times the copy |
| ScaleInvariance.SegmentScale | main.cpp:77-86 | the segment handed to the transform for scaled samples is the scaled segment |
| ScaleInvariance.CombineScale | main.cpp:64-68 | the butterfly combination of scaled halves is the scaled combination |
| ScaleInvariance.FftLinear | main.cpp:51-69 | the transform is linear: transforming c times a buffer gives c times its transform, for any twiddles |
| ScaleInvariance.NormsScale | main.cpp:94-95 | scaling a buffer by c multiplies every magnitude by c twice |
| ScaleInvariance.FirstMaxScale | main.cpp:92-100 | multiplying every magnitude by c^2, c nonzero, keeps the first maximum at the same index |
| ScaleInvariance.PeakIndexScale | main.cpp:92-100 | multiplying non-negative magnitudes by c^2, c nonzero, does not change the index the scan keeps |
| ScaleInvariance.PeakOfScaledSpectrum | main.cpp:92-100 | the peak bin of c times a spectrum is the peak bin of the spectrum, for c nonzero |
| ScaleInvariance.DominantBinScaleInvariant | main.cpp:72-104 | multiplying every sample by a nonzero c changes neither the dominant bin nor the returned frequency |
| Tuning.CheckTuning | main.cpp:107-115 | A440 exactly when 439 <= f <= 441, A432 exactly when 431 <= f <= 433, neither exactly otherwise |
| Tuning.TestOrderIrrelevant | main.cpp:108-111 | testing 432 before 440 gives the same verdict, because the two bands are disjoint |
| Tuning.BandEdges | main.cpp:108-111 | the bounds are inclusive: 439, 441, 431 and 433 match, 436 and 441.5 do not |

## Left out

- File I/O and process control are not modelled. This covers opening the file,
  `exit(1)` when it cannot be opened, printing, `main`'s argument handling and its
  fixed 44100 Hz rate. `check_tuning` returns a `Verdict` instead of printing a
  message.
- The actual values of `cos`, `polar` and `sqrt` are not modelled; they are the
  parameters `ham`, `w` and the squared modulus. The range [0.08, 1] of the
  Hamming coefficient and any spectral claim, such as a sine peaking at a given
  bin, depend on trigonometry and are not stated.
- IEEE-754 rounding is not modelled. The sample merge divides exact small
  integers by powers of two, so it is exact. Everything after that is
  exact-real arithmetic.
- `log2` is modelled as the exact `floor(log2(m))`. In `double`, `log2(m)`
  truncates to the same integer for every m below 2^31.
- `reinterpret_cast<int16_t*>` is modelled as a little-endian read, as in the WAVE
  PCM layout. Big-endian hosts are not modelled.
- Window.ApplyHammingWindow: a buffer of length 1 is excluded, because its
  coefficient divides 0 by 0.
- Dominant.FindDominantFrequency: needs at least 2 samples, which leaves out two
  inputs:
  - the empty buffer, where `log2(0)` cast to `int` is undefined behaviour;
  - a single sample. Its window coefficient is NaN (0/0), but that value is never
    read: N = 1, the scan over [0, 0) runs no iteration, and the source returns
    0.0. The model does not state this case.
  It also needs fewer than 2^31 samples, because `1 << 31` overflows an `int`.
- Dominant.BinToHzRange: the closed form and the [0, rate/2) range are stated
  for a non-negative rate. For a negative rate, `BinToHz` models the conversion
  to `size_t` and the 64-bit wrap, and states only that the result is
  non-negative and below 2^64 / N.
- Fft.FftSpec is modelled for every length, as the code behaves: an odd length
  leaves its last entry untouched. The equality with the DFT is stated only for
  powers of two, the only lengths the program transforms.
- `main.cpp` has no octave folding of the estimate into [400, 600), no ratio
  matching against a table of notes, and no infrasound or ultrasound advisories.
  `check_tuning` compares the raw estimate, so an 880 Hz tone is classified as
  neither.
- The in-code comment at main.cpp:73 says "next power of 2". The code takes the
  largest power of two not above the sample count, and so does the model.
