/**
  Tone generation: `dtmf_gen` looks up the key's (row, column) position
  and synthesises the sum of the two table frequencies; `digits_gen`
  concatenates, for every key of a digit string, one tone burst followed
  by a run of zero samples, and skips every other character.

  The sine synthesis itself is the parameter `wave`: wave(fRow, fCol, T)
  is the sample buffer for the two frequencies over T milliseconds.
*/
module Synthesis {
  import opened Wrappers
  import opened DtmfKeys
  import opened SeqFacts

  /** dtmf_gen(c, T); None when c is not a key (str.index raises). */
  function DtmfGen(c: char, T: real, wave: (int, int, real) -> seq<real>): (r: Option<seq<real>>)
    ensures r.Some? <==> c in Keys
  {
    match KeyPosition(c)
    case None => None
    case Some(p) => Some(wave(RowFreq[p.row], ColFreq[p.col], T))
  }

  /**
    The tone of a key is built from the row and column frequencies of the
    key's keypad position; the 1633 Hz column is never used, and two
    different keys never share a frequency pair.
  */
  lemma ToneFrequencies(c: char, T: real, wave: (int, int, real) -> seq<real>)
    requires c in Keys
    ensures exists p: Position ::
      && p.row < 4 && p.col < 3 && KeyAt(p) == c && ColFreq[p.col] != 1633
      && DtmfGen(c, T, wave) == Some(wave(RowFreq[p.row], ColFreq[p.col], T))
  {
    var p := KeyPosition(c).value;
    assert p.row < 4 && p.col < 3 && KeyAt(p) == c;
  }

  lemma DistinctKeysDistinctTones(c: char, d: char)
    requires c in Keys && d in Keys && c != d
    ensures var p, q := KeyPosition(c).value, KeyPosition(d).value;
      (RowFreq[p.row], ColFreq[p.col]) != (RowFreq[q.row], ColFreq[q.col])
  {
    var p, q := KeyPosition(c).value, KeyPosition(d).value;
    FrequenciesDistinct(p.row, q.row, p.col, q.col);
  }

  /**
    int(FS * Toff / 1000) zeros: Python's int truncates toward zero and a
    list repeated a non-positive number of times is empty.
  */
  function GapLength(toff: real): (n: nat)
    ensures var v := (SampleRate as real) * toff / 1000.0;
      (v >= 0.0 ==> n as real <= v < n as real + 1.0) && (v < 0.0 ==> n == 0)
  {
    var v := (SampleRate as real) * toff / 1000.0;
    if v < 0.0 then 0 else v.Floor
  }

  function Zeros(n: nat): (z: seq<real>)
    ensures |z| == n && forall i :: 0 <= i < n ==> z[i] == 0.0
  {
    seq(n, _ => 0.0)
  }

  /** What one character of the digit string contributes. */
  function Piece(c: char, ton: real, toff: real, wave: (int, int, real) -> seq<real>): (piece: seq<real>)
    ensures DtmfGen(c, ton, wave).None? ==> piece == []
    ensures DtmfGen(c, ton, wave).Some? ==>
      var g := GapLength(toff);
      |piece| >= g && piece[|piece| - g..] == Zeros(g)
  {
    match DtmfGen(c, ton, wave)
    case None => []
    case Some(tone) => tone + Zeros(GapLength(toff))
  }

  /** The buffer digits_gen builds: the pieces of all characters, in order. */
  function DigitsSignal(digits: string, ton: real, toff: real, wave: (int, int, real) -> seq<real>): (x: seq<real>)
    ensures |digits| > 0 ==> DigitsSignal(digits[..|digits| - 1], ton, toff, wave) <= x
  {
    if |digits| == 0 then []
    else
      var n := |digits| - 1;
      DigitsSignal(digits[..n], ton, toff, wave) + Piece(digits[n], ton, toff, wave)
  }

  /** digits_gen: grows the buffer character by character. */
  method DigitsGen(digits: string, ton: real, toff: real, wave: (int, int, real) -> seq<real>) returns (x: seq<real>)
    ensures x == DigitsSignal(digits, ton, toff, wave)
  {
    x := [];
    for i := 0 to |digits|
      invariant x == DigitsSignal(digits[..i], ton, toff, wave)
    {
      var c := digits[i];
      ghost var before := x;
      if c in Keys {
        x := x + DtmfGen(c, ton, wave).value;
        x := x + Zeros(GapLength(toff));
        AppendAssoc(before, DtmfGen(c, ton, wave).value, Zeros(GapLength(toff)));
      }
      DigitsGenStep(digits, i, ton, toff, wave);
    }
    assert digits[..|digits|] == digits;
  }

  /** Character i of the loop adds its piece: its tone and gap if it is a key, nothing otherwise. */
  lemma DigitsGenStep(digits: string, i: nat, ton: real, toff: real, wave: (int, int, real) -> seq<real>)
    requires i < |digits|
    ensures var c := digits[i];
      DigitsSignal(digits[..i + 1], ton, toff, wave) ==
        DigitsSignal(digits[..i], ton, toff, wave) +
        (if c in Keys then DtmfGen(c, ton, wave).value + Zeros(GapLength(toff)) else [])
  {
    assert digits[..i + 1][..i] == digits[..i];
  }

  /** A single character: a key gives its tone and then exactly GapLength(toff) zeros; anything else nothing. */
  lemma SingleCharacter(c: char, ton: real, toff: real, wave: (int, int, real) -> seq<real>)
    ensures c in Keys ==>
      DigitsSignal([c], ton, toff, wave) == DtmfGen(c, ton, wave).value + Zeros(GapLength(toff))
    ensures c !in Keys ==> DigitsSignal([c], ton, toff, wave) == []
  {
    assert [c][..0] == [];
  }

  /** The buffer of a concatenation is the concatenation of the buffers. */
  lemma {:induction false} DigitsAppend(a: string, b: string, ton: real, toff: real, wave: (int, int, real) -> seq<real>)
    ensures DigitsSignal(a + b, ton, toff, wave) == DigitsSignal(a, ton, toff, wave) + DigitsSignal(b, ton, toff, wave)
  {
    if |b| == 0 {
      assert a + b == a;
      assert DigitsSignal(b, ton, toff, wave) == [];
    } else {
      DigitsAppend(a, b[..|b| - 1], ton, toff, wave);
      DigitsAppendStep(a, b, ton, toff, wave);
    }
  }

  lemma DigitsAppendStep(a: string, b: string, ton: real, toff: real, wave: (int, int, real) -> seq<real>)
    requires |b| > 0
    requires DigitsSignal(a + b[..|b| - 1], ton, toff, wave) == DigitsSignal(a, ton, toff, wave) + DigitsSignal(b[..|b| - 1], ton, toff, wave)
    ensures DigitsSignal(a + b, ton, toff, wave) == DigitsSignal(a, ton, toff, wave) + DigitsSignal(b, ton, toff, wave)
  {
    var ab, front := a + b, b[..|b| - 1];
    AppendDropLast(a, b);
    DigitsSignalStep(ab, ton, toff, wave);
    DigitsSignalStep(b, ton, toff, wave);
    var x, y := DigitsSignal(a, ton, toff, wave), DigitsSignal(front, ton, toff, wave);
    var z := Piece(b[|b| - 1], ton, toff, wave);
    assert DigitsSignal(ab, ton, toff, wave) == DigitsSignal(a + front, ton, toff, wave) + z;
    assert DigitsSignal(ab, ton, toff, wave) == (x + y) + z;
    AppendAssoc(x, y, z);
  }

  lemma DigitsSignalStep(s: string, ton: real, toff: real, wave: (int, int, real) -> seq<real>)
    requires |s| > 0
    ensures DigitsSignal(s, ton, toff, wave) == DigitsSignal(s[..|s| - 1], ton, toff, wave) + Piece(s[|s| - 1], ton, toff, wave)
  {
  }

  /** The keys of a string, in order. */
  function KeysOf(s: string): (k: string)
    ensures |k| <= |s|
    ensures forall i :: 0 <= i < |k| ==> k[i] in Keys
  {
    if |s| == 0 then ""
    else
      var n := |s| - 1;
      KeysOf(s[..n]) + (if s[n] in Keys then [s[n]] else "")
  }

  /** Characters that are not keys contribute nothing: only the keys of the string matter. */
  lemma {:induction false} SkipNonKeys(s: string, ton: real, toff: real, wave: (int, int, real) -> seq<real>)
    ensures DigitsSignal(s, ton, toff, wave) == DigitsSignal(KeysOf(s), ton, toff, wave)
  {
    if |s| > 0 {
      var n := |s| - 1;
      SkipNonKeys(s[..n], ton, toff, wave);
      var tail := if s[n] in Keys then [s[n]] else "";
      DigitsAppend(KeysOf(s[..n]), tail, ton, toff, wave);
      SingleCharacter(s[n], ton, toff, wave);
      if s[n] !in Keys {
        assert KeysOf(s[..n]) + tail == KeysOf(s[..n]);
      }
    }
  }

  /** A string without any key gives the empty buffer. */
  lemma NoKeysEmpty(s: string, ton: real, toff: real, wave: (int, int, real) -> seq<real>)
    requires forall i :: 0 <= i < |s| ==> s[i] !in Keys
    ensures DigitsSignal(s, ton, toff, wave) == []
  {
    SkipNonKeys(s, ton, toff, wave);
    NoKeysOf(s);
  }

  lemma {:induction false} NoKeysOf(s: string)
    requires forall i :: 0 <= i < |s| ==> s[i] !in Keys
    ensures KeysOf(s) == ""
  {
    if |s| > 0 {
      NoKeysOf(s[..|s| - 1]);
    }
  }

  /**
    When every tone lasts L samples, the buffer holds L + GapLength(toff)
    samples per key of the string and nothing for the other characters.
  */
  lemma {:induction false} DigitsLength(s: string, ton: real, toff: real, wave: (int, int, real) -> seq<real>, L: nat)
    requires forall fr, fc :: |wave(fr, fc, ton)| == L
    ensures |DigitsSignal(s, ton, toff, wave)| == |KeysOf(s)| * (L + GapLength(toff))
  {
    if |s| > 0 {
      DigitsLength(s[..|s| - 1], ton, toff, wave, L);
      DigitsLengthStep(s, ton, toff, wave, L);
    }
  }

  lemma DigitsLengthStep(s: string, ton: real, toff: real, wave: (int, int, real) -> seq<real>, L: nat)
    requires |s| > 0
    requires forall fr, fc :: |wave(fr, fc, ton)| == L
    requires |DigitsSignal(s[..|s| - 1], ton, toff, wave)| == |KeysOf(s[..|s| - 1])| * (L + GapLength(toff))
    ensures |DigitsSignal(s, ton, toff, wave)| == |KeysOf(s)| * (L + GapLength(toff))
  {
    var n, m := |s| - 1, L + GapLength(toff);
    DigitsSignalStep(s, ton, toff, wave);
    PieceLength(s[n], ton, toff, wave, L);
    var k := |KeysOf(s[..n])|;
    if s[n] in Keys {
      assert |KeysOf(s)| == k + 1;
      MulStep(k, m);
    } else {
      assert |KeysOf(s)| == k;
    }
  }

  lemma PieceLength(c: char, ton: real, toff: real, wave: (int, int, real) -> seq<real>, L: nat)
    requires forall fr, fc :: |wave(fr, fc, ton)| == L
    ensures |Piece(c, ton, toff, wave)| == if c in Keys then L + GapLength(toff) else 0
  {
    match KeyPosition(c)
    case None =>
    case Some(p) =>
      ToneLength(p, ton, toff, wave, L);
  }

  lemma ToneLength(p: Position, ton: real, toff: real, wave: (int, int, real) -> seq<real>, L: nat)
    requires p.row < 4 && p.col < 3
    requires forall fr, fc :: |wave(fr, fc, ton)| == L
    ensures |wave(RowFreq[p.row], ColFreq[p.col], ton) + Zeros(GapLength(toff))| == L + GapLength(toff)
  {
  }

  lemma MulStep(k: nat, m: nat)
    ensures (k + 1) * m == k * m + m
  {
  }

  /** A string of keys only is its own key string. */
  lemma {:induction false} KeysOfKeys(s: string)
    requires forall i :: 0 <= i < |s| ==> s[i] in Keys
    ensures KeysOf(s) == s
  {
    if |s| > 0 {
      KeysOfKeys(s[..|s| - 1]);
      PrefixAndLast(s);
    }
  }

  lemma ExampleFacts()
    ensures |KeysOf("123")| == 3 && GapLength(50.0) == 400
  {
    KeysOfKeys("123");
  }

  /**
    Three keys with 800-sample (100 ms) tones and a 50 ms gap at 8000 Hz:
    3 x (800 + 400) samples around "123" (see ExampleFacts).
  */
  lemma ExampleLength(s: string, wave: (int, int, real) -> seq<real>)
    requires |KeysOf(s)| == 3
    requires forall fr, fc :: |wave(fr, fc, 100.0)| == 800
    ensures |DigitsSignal(s, 100.0, 50.0, wave)| == 3600
  {
    DigitsLength(s, 100.0, 50.0, wave, 800);
    ExampleFacts();
  }
}
