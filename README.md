# DTMF keypad codec: a Dafny model of its discrete core

`my_dtmf.py` generates and decodes DTMF (dual-tone multi-frequency)
keypad signals at 8000 samples per second. The model covers the parts of
that program that are logic rather than signal processing:

- **Keypad mapping** (`keys.dfy`, module `DtmfKeys`). The 12-key alphabet
  `123456789*0#` is laid out as 4 rows of 3 columns. A key maps to its
  position by `divmod(index, 3)`, and a position maps back to a key by
  `3 * row + col`. The frequency table has 4 row frequencies and 4 column
  frequencies.
- **Frame decision rule** (`detect.dfy`, module `Detect`). `dtmf_det` turns
  the eight energy scores of a frame into a key or the invalid sentinel
  `x`. It takes a first-index argmax in each group. It then rejects on low
  total power, on column 3, and on a failed dominance test. The scores
  come from the single-bin estimator `mgz`, which is a function parameter
  here.
- **Decoder state machine** (`decode.dfy`, module `Decode`). `dtmf_dec` is
  a method with a loop over the whole frames. It keeps the 3-slot history
  in an array and shifts it in place. It is proved equal to `Debounce`,
  which is a specification over the sequence of per-frame detections.
  The counting, spacing, concatenation and round-trip properties are
  proved about `Debounce`.
- **Signal builder** (`synthesis.dfy`, module `Synthesis`). `digits_gen` is
  a method with a loop. It is proved equal to `DigitsSignal`, and
  `DigitsSignal`'s skip policy, length and concatenation behaviour are
  proved as lemmas. The sine synthesis is a function parameter
  `wave(fRow, fCol, T)`.
- `wrappers.dfy` holds the `Option` type. `seqfacts.dfy` holds three
  generic facts about sequence concatenation.

Three behaviours of the code are worth stating on their own:

- The history starts as three invalid symbols (`my_dtmf.py:82`). A tone
  present from the very first frame therefore commits at frame 1, and no
  leading silence is needed (`Decode.SustainedKey`).
- The gap after each tone has `int(FS * Toff / 1000)` zeros
  (`my_dtmf.py:44`). The count is truncated toward zero, not rounded, and
  a negative count gives no zeros.
- A character that is not a key makes `str.index` in `dtmf_gen` raise
  `ValueError`. `DtmfGen` and `KeyPosition` model that case as `None`. `digits_gen` never reaches that case, because it skips
  non-keys first.

## Model

| member | source | states |
|---|---|---|
| DtmfKeys.KeysDistinct | my_dtmf.py:14 | the twelve characters of the keypad alphabet are pairwise distinct |
| DtmfKeys.SentinelNotKey | my_dtmf.py:14-16 | the invalid symbol `x` is not one of the twelve keys |
| DtmfKeys.FrequenciesDistinct | my_dtmf.py:15 | the four row frequencies are pairwise distinct, and so are the four column frequencies |
| DtmfKeys.IndexOf | my_dtmf.py:31 | `str.index` returns the first index holding `c`; None (the raised error) exactly when `c` does not occur |
| DtmfKeys.IndexOfKey | my_dtmf.py:31 | looking up the k-th key of the alphabet gives index k |
| DtmfKeys.KeyAt | my_dtmf.py:72 | `DTMF_KEYS[3*ir+ic]` for a row below 4 and a column below 3 is always a key, so the index is in range |
| DtmfKeys.KeyPosition | my_dtmf.py:31 | `divmod(index(c), 3)` is None exactly for non-keys; otherwise it gives a row below 4 and a column below 3 whose key is `c` |
| DtmfKeys.PositionOfKeyAt | my_dtmf.py:72 | the detector's `3*row+col` inverted by the generator's `divmod` gives the position back |
| DtmfKeys.KeyAtInjective | my_dtmf.py:72 | different positions hold different keys |
| DtmfKeys.KeyPositionBijection | my_dtmf.py:31 | every key has a position, never in column 3; for positions in range, `KeyPosition(c) == p` exactly when the key at `p` is `c` |
| Detect.ArgMax | my_dtmf.py:69 | numpy argmax: the result is a maximal index and every earlier entry is strictly smaller (the first maximum) |
| Detect.Sum | my_dtmf.py:71 | `xp.sum()` and `xp[k].sum()`: the total of non-negative scores is non-negative |
| Detect.RowScores | my_dtmf.py:68 | the first row of `reshape(2, -1)`: the four scores of the row frequencies, in order |
| Detect.ColScores | my_dtmf.py:68 | the second row of `reshape(2, -1)`: the four scores of the column frequencies, in order |
| Detect.Decide | my_dtmf.py:69-74 | the decision rule; its result is always a key or the sentinel |
| Detect.DecideRejects | my_dtmf.py:71-74 | total power at or below PWTHR, column argmax 3, failed row dominance and failed column dominance each force the sentinel |
| Detect.DecideKeyRange | my_dtmf.py:69-72 | a key result has column argmax below 3 and sits exactly at the position (row argmax, column argmax) |
| Detect.DominantIsArgMax | my_dtmf.py:69-71 | among four non-negative scores, one above ratio >= 1/2 of the total is the argmax |
| Detect.DecideKeyIff | my_dtmf.py:69-72 | for any ratio of at least 1/2 and non-negative scores, the result is the key at `p` if and only if `KeyDominates` holds at `p`: the power exceeds PWTHR and p's row and column scores each exceed `ratio` of their group's total |
| Detect.DecidedKeyDominates | my_dtmf.py:71-72 | a decided key passes the power test and both dominance tests at its own position, for any ratio |
| Detect.DominantKeyDecided | my_dtmf.py:69-72 | for a ratio of at least 1/2 and non-negative scores, dominance at `p` makes p's row and column the argmaxes, so p's key is returned |
| Detect.Scores | my_dtmf.py:66-68 | the frame gives eight scores, one per table frequency |
| Detect.Frequency | my_dtmf.py:66 | entry j of `DTMF_FREQ.reshape(-1)` lies between 697 and 1633 Hz, and it is a row frequency (below 1209 Hz) exactly when j < 4 |
| Detect.Bin | my_dtmf.py:67 | `kf = ff / FS * len(x)` is a non-negative bin below a quarter of the frame length, so below the n/2 limit |
| Detect.DtmfDet | my_dtmf.py:61-74 | the frame detector returns a key or the sentinel |
| Decode.Frame | my_dtmf.py:86 | frame i, `x[i*NFRM:(i+1)*NFRM]`, has exactly NFRM samples |
| Decode.FrameCount | my_dtmf.py:83 | `len(x)//NFRM`: the largest n with n whole frames inside the buffer |
| Decode.CommitsAt | my_dtmf.py:87 | the test `s[0] == INVLD and s[1] != INVLD and s[2] == s[1]` on the history after frame i, read from `Padded` (the verdicts behind the two initial sentinels of line 82); a committing frame is not frame 0, and its verdict is valid and equal to the previous one |
| Decode.Debounce | my_dtmf.py:82-88 | the string the loop builds, frame by frame through `Emitted` (the conditional `d += s[2]`); every character of it is one of the frame verdicts |
| Decode.Detections | my_dtmf.py:83-86 | there are exactly `len(x)//NFRM` frame verdicts, each a key or the sentinel |
| Decode.History | my_dtmf.py:82 | the history always holds three slots |
| Decode.DtmfDec | my_dtmf.py:76-89 | the loop's output is `Debounce` of the frame verdicts; every output character is a key; the output has at most `(len(x)//NFRM + 1) / 3` characters |
| Decode.HistoryStep | my_dtmf.py:84-86 | shifting the history and storing verdict i leaves (verdict i-2, verdict i-1, verdict i), with the initial sentinels before frame 0 |
| Decode.DebounceStep | my_dtmf.py:87-88 | frame k appends verdict k exactly when it commits, and nothing otherwise |
| Decode.CommitRule | my_dtmf.py:82-88 | frame i commits if and only if i >= 1, verdict i is a key equal to verdict i-1, and either i == 1 or verdict i-2 is the sentinel |
| Decode.CommitSpacing | my_dtmf.py:84-88 | two commits are at least three frames apart |
| Decode.RunCommitsOnce | my_dtmf.py:84-88 | a run of identical key verdicts contains at most one commit |
| Decode.DebounceKeysOnly | my_dtmf.py:87-88 | every committed character is a key, never the sentinel |
| Decode.DebounceAllInvalid | my_dtmf.py:87-88 | if every frame is invalid, the output is empty |
| Decode.DebounceBound | my_dtmf.py:83-88 | three times the output length is at most the frame count plus one |
| Decode.DebounceLengthStep | my_dtmf.py:87-88 | each frame adds one character when it commits and none otherwise |
| Decode.TrailingSamplesIgnored | my_dtmf.py:83 | samples that do not complete another frame never change the verdicts |
| Decode.DetectionsAppend | my_dtmf.py:83-86 | a buffer cut at a frame boundary gives the verdicts of its two parts, in order |
| Decode.DebounceAppend | my_dtmf.py:84-88 | after an invalid verdict, the output of the concatenation is the concatenation of the outputs |
| Decode.CommitsAtAfterInvalid | my_dtmf.py:87 | after an invalid verdict, a frame of the second part commits on the whole exactly when it commits on that part alone |
| Decode.DebounceTrailingInvalid | my_dtmf.py:87 | invalid frames appended to any verdicts never commit |
| Decode.SustainedKey | my_dtmf.py:82-88 | a key detected on t >= 2 frames from the first frame on commits exactly once |
| Decode.BurstsRoundTrip | my_dtmf.py:82-88 | a key string in which key i is detected on its own count `ts[i]` >= 2 of frames and followed by its own count `gs[i]` >= 1 of invalid frames decodes back to exactly that string, repeated keys included |
| Decode.BurstsEndInvalid | my_dtmf.py:87 | a burst sequence whose last key is followed by at least one invalid frame ends in an invalid frame |
| Decode.DecodeAppend | my_dtmf.py:76-89 | two buffers cut at a frame boundary, the first ending in an invalid frame, decode to the concatenation of their decodings |
| Synthesis.DtmfGen | my_dtmf.py:23-33 | a tone exists exactly for the keys; a non-key raises (None) |
| Synthesis.ToneFrequencies | my_dtmf.py:31-32 | a key's tone uses the row and column frequencies of its keypad position, and 1633 Hz is never used |
| Synthesis.DistinctKeysDistinctTones | my_dtmf.py:31-32 | two different keys never share a frequency pair |
| Synthesis.GapLength | my_dtmf.py:44 | `int(FS*Toff/1000)` truncates: the count is the integer part of the value, and 0 when the value is negative |
| Synthesis.Zeros | my_dtmf.py:44 | the gap is exactly n zero samples |
| Synthesis.Piece | my_dtmf.py:42-44 | what one character adds: nothing when it is not a key, and otherwise a buffer ending in exactly `GapLength(Toff)` zeros |
| Synthesis.DigitsSignal | my_dtmf.py:40-45 | the buffer built over a string; the buffer of the string without its last character is a prefix of it, since the loop only appends |
| Synthesis.KeysOf | my_dtmf.py:42 | the characters that pass `if c in DTMF_KEYS`: every one is a key, and there are never more than the string has |
| Synthesis.DigitsGen | my_dtmf.py:35-45 | the loop builds `DigitsSignal`, the pieces of all characters in order |
| Synthesis.SingleCharacter | my_dtmf.py:42-44 | a key gives its tone then exactly `GapLength(Toff)` zeros; any other character gives nothing |
| Synthesis.DigitsAppend | my_dtmf.py:40-45 | the buffer of `a + b` is the buffer of `a` followed by the buffer of `b` |
| Synthesis.SkipNonKeys | my_dtmf.py:42 | the buffer depends only on the keys of the string, in order |
| Synthesis.NoKeysEmpty | my_dtmf.py:40-45 | a string without keys gives the empty buffer |
| Synthesis.KeysOfKeys | my_dtmf.py:42 | a string made only of keys keeps every character |
| Synthesis.PieceLength | my_dtmf.py:42-44 | one character contributes tone length plus gap length if it is a key, and 0 otherwise |
| Synthesis.DigitsLength | my_dtmf.py:41-44 | with tones of L samples, the total length is (number of keys) times (L + gap length), the gap after the last key included |
| Synthesis.ExampleLength | my_dtmf.py:41-44 | three keys with 800-sample tones and a 50 ms gap give 3 x (800 + 400) = 3600 samples |

## Left out

- The `mgz` single-bin (Goertzel) estimator, `my_dtmf.py:47-59`, is left
  out. It is a floating-point filter with `np.cos`. The detector takes it
  as a function parameter and treats each score as an opaque real.
- The bin positions `kf = ff / FS * len(x)`, `my_dtmf.py:66-67`, are
  modelled as one real expression (`Detect.Bin`). They only feed `mgz`,
  and floating-point rounding is not modelled.
- The sine synthesis and exact tone length of `dtmf_gen`,
  `my_dtmf.py:30, 32-33`, are left out. The tone is the function
  parameter `wave`.
- Synthesis.DigitsLength: assumes every tone has the same length L for
  the given duration. The source's tone length depends only on `T`
  (`np.arange(0, T/1000, 1/FS)`), but that length is not computed here,
  because it comes from a float step.
- Synthesis.GapLength: computes `FS*Toff/1000` in exact reals. Double
  rounding just below an integer is not modelled.
- The audio device and plotting setup, `my_dtmf.py:7-10, 19-21`, are left
  out. `sounddevice`, `matplotlib` and `numpy.random` do no logic here.
- Detect.DecideKeyIff: needs a ratio of at least 1/2. Below that, a
  dominant score need not be the argmax. The default ratio 0.8 is covered.
- Detect.DtmfDet: the non-negativity of the estimator's scores, which
  `DecideKeyIff` assumes, is not derived from `mgz`, because `mgz` is not
  modelled.
- The round trip from a digit string through `digits_gen` and `dtmf_dec`
  back to the string is stated on frame verdicts (`BurstsRoundTrip`).
  Whether a real tone frame is detected as its key depends on `mgz` and
  the sine values, which are not modelled.
- NaN scores are not modelled, since the scores are exact reals.
