/**
  The decoder `dtmf_dec`: the sample buffer is cut into non-overlapping
  frames of FrameSize samples, each frame is classified by the frame
  detector, and a 3-slot history (oldest, middle, newest) of the
  classifications decides when a key is committed to the output: when the
  history reads (invalid, a, a) with a a key.

  The specification is `Debounce`, defined over the sequence of per-frame
  detections; its properties are stated for any such sequence.
*/
module Decode {
  import opened DtmfKeys
  import opened Detect
  import opened SeqFacts

  /** Samples per frame (NFRM). */
  const FrameSize: nat := 200

  /** Number of whole frames in a buffer; trailing samples are dropped. */
  function FrameCount(x: seq<real>): (n: nat)
    ensures n * FrameSize <= |x| < (n + 1) * FrameSize
  {
    |x| / FrameSize
  }

  /** Frame i: the samples x[i*FrameSize .. (i+1)*FrameSize). */
  function Frame(x: seq<real>, i: nat): (f: seq<real>)
    requires i < FrameCount(x)
    ensures |f| == FrameSize
  {
    x[i * FrameSize..(i + 1) * FrameSize]
  }

  /** The detector's verdict, with its default ratio, on every whole frame of `x`, in order. */
  function Detections(x: seq<real>, mgz: (seq<real>, real) -> real): (dets: seq<char>)
    ensures |dets| == FrameCount(x)
    ensures forall i :: 0 <= i < |dets| ==> IsSymbol(dets[i])
  {
    seq(FrameCount(x), i requires 0 <= i < FrameCount(x) => DtmfDet(Frame(x, i), Ratio, mgz))
  }

  /** The detections preceded by the two invalid slots of the initial history. */
  function Padded(dets: seq<char>): seq<char> {
    [Invalid, Invalid] + dets
  }

  /** Frame i commits: the history after it reads (invalid, a, a) with a valid. */
  predicate CommitsAt(dets: seq<char>, i: nat)
    requires i < |dets|
    ensures CommitsAt(dets, i) ==> 1 <= i && dets[i] != Invalid && dets[i - 1] == dets[i]
  {
    var p := Padded(dets);
    p[i] == Invalid && p[i + 1] != Invalid && p[i + 2] == p[i + 1]
  }

  /** The digit string committed over a sequence of frame detections. */
  function Debounce(dets: seq<char>): (d: string)
    ensures forall k :: 0 <= k < |d| ==> d[k] in dets
  {
    if |dets| == 0 then ""
    else
      var n := |dets| - 1;
      Debounce(dets[..n]) + Emitted(dets, n)
  }

  /** What frame i adds to the digit string: its symbol when it commits, nothing otherwise. */
  function Emitted(dets: seq<char>, i: nat): string
    requires i < |dets|
  {
    if CommitsAt(dets, i) then [dets[i]] else ""
  }

  /** The 3-slot history after k frames: the last three of three invalid slots followed by the detections. */
  function History(dets: seq<char>, k: nat): (h: seq<char>)
    requires k <= |dets|
    ensures |h| == 3
  {
    ([Invalid, Invalid, Invalid] + dets)[k..k + 3]
  }

  /**
    dtmf_dec: runs the detector once per whole frame, shifting the history
    and appending the newest symbol when the commit rule holds.
  */
  method DtmfDec(x: seq<real>, mgz: (seq<real>, real) -> real) returns (d: string)
    ensures d == Debounce(Detections(x, mgz))
    ensures forall k :: 0 <= k < |d| ==> d[k] in Keys
    ensures |d| <= (FrameCount(x) + 1) / 3
  {
    ghost var dets := Detections(x, mgz);
    d := "";
    var s := new char[][Invalid, Invalid, Invalid];
    for i := 0 to |x| / FrameSize
      invariant s[..] == History(dets, i)
      invariant d == Debounce(dets[..i])
    {
      s[0] := s[1];
      s[1] := s[2];
      s[2] := DtmfDet(Frame(x, i), Ratio, mgz);
      HistoryStep(dets, i);
      assert s[..] == History(dets, i + 1);
      DebounceStep(dets, i);
      if s[0] == Invalid && s[1] != Invalid && s[2] == s[1] {
        d := d + [s[2]];
      }
    }
    assert dets[..|dets|] == dets;
    DebounceKeysOnly(dets);
    DebounceBound(dets);
  }

  /** Shifting the history and inserting det[i] gives the window (det[i-2], det[i-1], det[i]). */
  lemma HistoryStep(dets: seq<char>, i: nat)
    requires i < |dets|
    ensures History(dets, i + 1) == History(dets, i)[1..] + [dets[i]]
    ensures History(dets, i + 1) == [Padded(dets)[i], Padded(dets)[i + 1], dets[i]]
  {
  }

  /** Whether frame i commits depends only on frames up to i. */
  lemma CommitsAtPrefix(dets: seq<char>, i: nat, k: nat)
    requires i < k <= |dets|
    ensures CommitsAt(dets[..k], i) == CommitsAt(dets, i)
  {
    assert Padded(dets[..k]) == Padded(dets)[..k + 2];
  }

  /** The output after frame k is the output before it plus, if frame k commits, det[k]. */
  lemma DebounceStep(dets: seq<char>, k: nat)
    requires k < |dets|
    ensures Debounce(dets[..k + 1]) == Debounce(dets[..k]) + (if CommitsAt(dets, k) then [dets[k]] else "")
  {
    assert dets[..k + 1][..k] == dets[..k];
    CommitsAtPrefix(dets, k, k + 1);
  }

  /**
    The commit rule without the padding: frame 0 never commits; frame 1
    commits when the first two detections are the same key (the initial
    history already counts as a leading invalid frame); a later frame i
    commits when det[i-2] is invalid and det[i-1] == det[i] is a key.
  */
  lemma CommitRule(dets: seq<char>, i: nat)
    requires i < |dets|
    ensures CommitsAt(dets, i) <==>
      1 <= i && dets[i] != Invalid && dets[i] == dets[i - 1] && (i == 1 || dets[i - 2] == Invalid)
  {
  }

  /** Two commits are at least three frames apart. */
  lemma CommitSpacing(dets: seq<char>, i: nat, j: nat)
    requires i < j < |dets|
    requires CommitsAt(dets, i) && CommitsAt(dets, j)
    ensures j >= i + 3
  {
  }

  /** Within a run of detections of one key, at most one frame commits. */
  lemma RunCommitsOnce(dets: seq<char>, c: char, i: nat, j: nat, k1: nat, k2: nat)
    requires c != Invalid && j <= |dets|
    requires forall k :: i <= k < j ==> dets[k] == c
    requires i <= k1 <= k2 < j
    requires CommitsAt(dets, k1) && CommitsAt(dets, k2)
    ensures k1 == k2
  {
  }

  /** Every committed symbol is a key, never the sentinel. */
  lemma {:induction false} DebounceKeysOnly(dets: seq<char>)
    requires forall i :: 0 <= i < |dets| ==> IsSymbol(dets[i])
    ensures forall k :: 0 <= k < |Debounce(dets)| ==> Debounce(dets)[k] in Keys
  {
    if |dets| > 0 {
      var n := |dets| - 1;
      DebounceKeysOnly(dets[..n]);
    }
  }

  /** A buffer in which every frame is invalid decodes to the empty string. */
  lemma {:induction false} DebounceAllInvalid(dets: seq<char>)
    requires forall i :: 0 <= i < |dets| ==> dets[i] == Invalid
    ensures Debounce(dets) == ""
  {
    if |dets| > 0 {
      DebounceAllInvalid(dets[..|dets| - 1]);
    }
  }

  /** At most one commit per three frames, the first one no earlier than frame 1. */
  lemma {:induction false} DebounceBound(dets: seq<char>)
    ensures 3 * |Debounce(dets)| <= |dets| + 1
  {
    var n := |dets|;
    if n == 0 {
    } else if !CommitsAt(dets, n - 1) || n < 3 {
      DebounceBound(dets[..n - 1]);
      BoundAfterQuiet(dets);
    } else {
      DebounceBound(dets[..n - 3]);
      BoundAfterCommit(dets);
    }
  }

  /** A last frame that does not commit keeps the bound; nor does a commit at frame 1. */
  lemma BoundAfterQuiet(dets: seq<char>)
    requires |dets| > 0 && (!CommitsAt(dets, |dets| - 1) || |dets| < 3)
    requires 3 * |Debounce(dets[..|dets| - 1])| <= |dets|
    ensures 3 * |Debounce(dets)| <= |dets| + 1
  {
    var n := |dets|;
    assert dets[..n] == dets;
    DebounceLengthStep(dets, n - 1);
    if n == 2 {
      DebounceLengthStep(dets, 0);
    }
  }

  /** A commit at the last frame follows two frames that do not commit. */
  lemma BoundAfterCommit(dets: seq<char>)
    requires |dets| >= 3 && CommitsAt(dets, |dets| - 1)
    requires 3 * |Debounce(dets[..|dets| - 3])| <= |dets| - 2
    ensures 3 * |Debounce(dets)| <= |dets| + 1
  {
    var n := |dets|;
    assert dets[..n] == dets;
    assert !CommitsAt(dets, n - 2) && !CommitsAt(dets, n - 3);
    DebounceLengthStep(dets, n - 1);
    DebounceLengthStep(dets, n - 2);
    DebounceLengthStep(dets, n - 3);
  }

  /** Frame k adds one digit when it commits and none otherwise. */
  lemma DebounceLengthStep(dets: seq<char>, k: nat)
    requires k < |dets|
    ensures |Debounce(dets[..k + 1])| == |Debounce(dets[..k])| + (if CommitsAt(dets, k) then 1 else 0)
  {
    DebounceStep(dets, k);
  }

  /** Samples that do not complete another frame never affect the detections. */
  lemma TrailingSamplesIgnored(x: seq<real>, t: seq<real>, mgz: (seq<real>, real) -> real)
    requires FrameCount(x + t) == FrameCount(x)
    ensures Detections(x + t, mgz) == Detections(x, mgz)
  {
    forall i | 0 <= i < FrameCount(x)
      ensures Frame(x + t, i) == Frame(x, i)
    {
      assert (i + 1) * FrameSize <= |x|;
    }
  }

  /** A buffer cut at a frame boundary is detected as its two parts, in order. */
  lemma DetectionsAppend(x: seq<real>, y: seq<real>, mgz: (seq<real>, real) -> real)
    requires |x| % FrameSize == 0
    ensures Detections(x + y, mgz) == Detections(x, mgz) + Detections(y, mgz)
  {
    var n := FrameCount(x);
    assert |x| == n * FrameSize;
    assert FrameCount(x + y) == n + FrameCount(y);
    forall i | 0 <= i < FrameCount(x + y)
      ensures Frame(x + y, i) == if i < n then Frame(x, i) else Frame(y, i - n)
    {
      FrameAppend(x, y, i);
    }
  }

  lemma FrameAppend(x: seq<real>, y: seq<real>, i: nat)
    requires |x| % FrameSize == 0
    requires i < FrameCount(x + y)
    ensures i < FrameCount(x) ==> Frame(x + y, i) == Frame(x, i)
    ensures i >= FrameCount(x) ==> i - FrameCount(x) < FrameCount(y) && Frame(x + y, i) == Frame(y, i - FrameCount(x))
  {
    var n := FrameCount(x);
    assert |x| == n * FrameSize;
    if i < n {
      assert (i + 1) * FrameSize <= |x|;
    } else {
      assert (i - n) * FrameSize + |x| == i * FrameSize;
    }
  }

  /**
    A detection sequence that ends in an invalid frame resets the history's
    effect: whatever follows is debounced as from a fresh start.
  */
  lemma {:induction false} DebounceAppend(a: seq<char>, b: seq<char>)
    requires |a| > 0 && a[|a| - 1] == Invalid
    ensures Debounce(a + b) == Debounce(a) + Debounce(b)
  {
    if |b| == 0 {
      assert a + b == a;
    } else {
      var j := |b| - 1;
      DebounceAppend(a, b[..j]);
      CommitsAtAfterInvalid(a, b, j);
      DebounceAppendStep(a, b);
    }
  }

  /**
    After an invalid frame, frame j of `b` commits on `a + b` exactly when it
    commits on `b`, and so adds the same digits.
  */
  lemma CommitsAtAfterInvalid(a: seq<char>, b: seq<char>, j: nat)
    requires |a| > 0 && a[|a| - 1] == Invalid
    requires j < |b|
    ensures CommitsAt(a + b, |a| + j) == CommitsAt(b, j)
    ensures Emitted(a + b, |a| + j) == Emitted(b, j)
  {
    var p, q := Padded(a + b), Padded(b);
    assert p[|a| + j + 2] == q[j + 2];
    if j >= 1 {
      assert p[|a| + j + 1] == q[j + 1];
    }
    if j >= 2 {
      assert p[|a| + j] == q[j];
    }
  }

  lemma DebounceAppendStep(a: seq<char>, b: seq<char>)
    requires |b| > 0
    requires Debounce(a + b[..|b| - 1]) == Debounce(a) + Debounce(b[..|b| - 1])
    requires Emitted(a + b, |a| + |b| - 1) == Emitted(b, |b| - 1)
    ensures Debounce(a + b) == Debounce(a) + Debounce(b)
  {
    DebounceLastOfAppend(a, b);
    DebounceLast(b);
    var j := |b| - 1;
    ConcatChain(Debounce(a + b), Debounce(a + b[..j]), Debounce(b), Debounce(a), Debounce(b[..j]), Emitted(b, j));
  }

  lemma DebounceLastOfAppend(a: seq<char>, b: seq<char>)
    requires |b| > 0
    ensures Debounce(a + b) == Debounce(a + b[..|b| - 1]) + Emitted(a + b, |a| + |b| - 1)
  {
    AppendDropLast(a, b);
  }

  /** u = (x + y) + z and w = y + z give u = x + w. */
  lemma ConcatChain(u: string, v: string, w: string, x: string, y: string, z: string)
    requires u == v + z && v == x + y && w == y + z
    ensures u == x + w
  {
    AppendAssoc(x, y, z);
  }

  lemma DebounceLast(s: seq<char>)
    requires |s| > 0
    ensures Debounce(s) == Debounce(s[..|s| - 1]) + Emitted(s, |s| - 1)
  {
  }

  /** n copies of the symbol c. */
  function Repeat(c: char, n: nat): (r: seq<char>)
    ensures |r| == n && forall i :: 0 <= i < n ==> r[i] == c
  {
    seq(n, _ => c)
  }

  /** Invalid frames after anything never commit. */
  lemma {:induction false} DebounceTrailingInvalid(a: seq<char>, g: nat)
    ensures Debounce(a + Repeat(Invalid, g)) == Debounce(a)
  {
    if g > 0 {
      var b := a + Repeat(Invalid, g);
      assert b[..|b| - 1] == a + Repeat(Invalid, g - 1);
      DebounceTrailingInvalid(a, g - 1);
    } else {
      assert a + Repeat(Invalid, g) == a;
    }
  }

  /**
    A key detected on t >= 2 consecutive frames from the very first frame
    commits exactly once: the initial history counts as leading silence.
  */
  lemma {:induction false} SustainedKey(c: char, t: nat)
    requires c in Keys && t >= 2
    ensures Debounce(Repeat(c, t)) == [c]
  {
    var r := Repeat(c, t);
    assert r[..t - 1] == Repeat(c, t - 1);
    if t == 2 {
      assert Repeat(c, 1)[..0] == [];
      assert Debounce(Repeat(c, 1)) == "";
    } else {
      SustainedKey(c, t - 1);
    }
  }

  /** The detections of one key burst: t frames of the key, then g invalid frames. */
  function Burst(c: char, t: nat, g: nat): seq<char> {
    Repeat(c, t) + Repeat(Invalid, g)
  }

  /**
    The detections of a digit string sent as bursts, in order: key i is
    detected on ts[i] frames and followed by gs[i] invalid frames. The
    counts differ from key to key because frames drift against the tones.
  */
  function Bursts(w: string, ts: seq<nat>, gs: seq<nat>): seq<char>
    requires |ts| == |w| && |gs| == |w|
  {
    if |w| == 0 then []
    else
      var n := |w| - 1;
      Bursts(w[..n], ts[..n], gs[..n]) + Burst(w[n], ts[n], gs[n])
  }

  /**
    Symbol-level round trip: if each key of `w` is detected on at least two
    frames and followed by at least one invalid frame, the decoder returns
    exactly `w`, repeated keys included.
  */
  lemma {:induction false} BurstsRoundTrip(w: string, ts: seq<nat>, gs: seq<nat>)
    requires |ts| == |w| && |gs| == |w|
    requires forall i :: 0 <= i < |w| ==> w[i] in Keys && ts[i] >= 2 && gs[i] >= 1
    ensures Debounce(Bursts(w, ts, gs)) == w
  {
    if |w| > 0 {
      var n := |w| - 1;
      var c, t, g := w[n], ts[n], gs[n];
      var front := Bursts(w[..n], ts[..n], gs[..n]);
      BurstsRoundTrip(w[..n], ts[..n], gs[..n]);
      DebounceTrailingInvalid(Repeat(c, t), g);
      SustainedKey(c, t);
      assert Debounce(Burst(c, t, g)) == [c];
      if n == 0 {
        assert front == [];
        assert [] + Burst(c, t, g) == Burst(c, t, g);
      } else {
        BurstsEndInvalid(w[..n], ts[..n], gs[..n]);
        DebounceAppend(front, Burst(c, t, g));
      }
      PrefixAndLast(w);
    }
  }

  /** A burst sequence whose last key is followed by an invalid frame ends invalid. */
  lemma BurstsEndInvalid(w: string, ts: seq<nat>, gs: seq<nat>)
    requires |ts| == |w| && |gs| == |w|
    requires |w| > 0 && gs[|w| - 1] >= 1
    ensures var b := Bursts(w, ts, gs); |b| > 0 && b[|b| - 1] == Invalid
  {
  }

  /**
    Two buffers cut at a frame boundary, the first ending in an invalid
    frame, decode to the concatenation of their decodings.
  */
  lemma DecodeAppend(x: seq<real>, y: seq<real>, mgz: (seq<real>, real) -> real)
    requires |x| % FrameSize == 0 && FrameCount(x) > 0
    requires DtmfDet(Frame(x, FrameCount(x) - 1), Ratio, mgz) == Invalid
    ensures Debounce(Detections(x + y, mgz)) == Debounce(Detections(x, mgz)) + Debounce(Detections(y, mgz))
  {
    DetectionsAppend(x, y, mgz);
    DebounceAppend(Detections(x, mgz), Detections(y, mgz));
  }
}
