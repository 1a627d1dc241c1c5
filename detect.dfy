/**
  The frame detector `dtmf_det`: eight energy scores (the single-bin
  estimator's outputs for the 4 row and 4 column frequencies, taken here as
  opaque reals) are reduced to a key or the invalid sentinel by a threshold
  on the total power, a first-index argmax per group, the exclusion of
  column 3 and a dominance test per group.
*/
module Detect {
  import opened Wrappers
  import opened DtmfKeys

  /** Total score at or below which a frame counts as silence (PWTHR). */
  const PowerThreshold: real := 100.0

  /** The default dominance ratio of dtmf_det. */
  const Ratio: real := 0.8

  /** xp.sum(): the total of a group of scores, never negative when the scores are not. */
  function Sum(s: seq<real>): (t: real)
    ensures NonNegative(s) ==> t >= 0.0
  {
    if |s| == 0 then 0.0 else Sum(s[..|s| - 1]) + s[|s| - 1]
  }

  /** numpy's argmax: the FIRST index at which `s` takes its maximum. */
  function ArgMax(s: seq<real>): (k: nat)
    requires |s| > 0
    ensures k < |s|
    ensures forall j :: 0 <= j < |s| ==> s[j] <= s[k]
    ensures forall j :: 0 <= j < k ==> s[j] < s[k]
  {
    if |s| == 1 then 0
    else
      var k := ArgMax(s[..|s| - 1]);
      if s[|s| - 1] > s[k] then |s| - 1 else k
  }

  /** The row scores xp[0] and the column scores xp[1] of the 2x4 reshape. */
  function RowScores(xp: seq<real>): (row: seq<real>)
    requires |xp| == 8
    ensures |row| == 4 && forall j :: 0 <= j < 4 ==> row[j] == xp[j]
  {
    xp[..4]
  }

  function ColScores(xp: seq<real>): (col: seq<real>)
    requires |xp| == 8
    ensures |col| == 4 && forall j :: 0 <= j < 4 ==> col[j] == xp[4 + j]
  {
    xp[4..]
  }

  /** The decision rule of dtmf_det over the eight scores and a dominance ratio. */
  function Decide(xp: seq<real>, ratio: real): (r: char)
    requires |xp| == 8
    ensures IsSymbol(r)
  {
    var row, col := RowScores(xp), ColScores(xp);
    var ir, ic := ArgMax(row), ArgMax(col);
    if Sum(xp) > PowerThreshold && ic != 3 && row[ir] > ratio * Sum(row) && col[ic] > ratio * Sum(col)
    then KeyAt(Position(ir, ic))
    else Invalid
  }

  /** Each of the four rejection conditions forces the sentinel. */
  lemma DecideRejects(xp: seq<real>, ratio: real)
    requires |xp| == 8
    ensures Sum(xp) <= PowerThreshold ==> Decide(xp, ratio) == Invalid
    ensures ArgMax(ColScores(xp)) == 3 ==> Decide(xp, ratio) == Invalid
    ensures !(RowScores(xp)[ArgMax(RowScores(xp))] > ratio * Sum(RowScores(xp))) ==> Decide(xp, ratio) == Invalid
    ensures !(ColScores(xp)[ArgMax(ColScores(xp))] > ratio * Sum(ColScores(xp))) ==> Decide(xp, ratio) == Invalid
  {
  }

  /** A key result is the alphabet entry at the two argmax positions, column below 3. */
  lemma DecideKeyRange(xp: seq<real>, ratio: real)
    requires |xp| == 8
    ensures var r := Decide(xp, ratio);
      r != Invalid ==>
        ArgMax(ColScores(xp)) < 3 &&
        KeyPosition(r) == Some(Position(ArgMax(RowScores(xp)), ArgMax(ColScores(xp))))
  {
    var ir, ic := ArgMax(RowScores(xp)), ArgMax(ColScores(xp));
    if Decide(xp, ratio) != Invalid {
      PositionOfKeyAt(Position(ir, ic));
    }
  }

  lemma Sum4(s: seq<real>)
    requires |s| == 4
    ensures Sum(s) == s[0] + s[1] + s[2] + s[3]
  {
    assert s[..3][..2] == s[..2] && s[..2][..1] == s[..1] && s[..1][..0] == [];
    assert Sum(s[..1]) == s[0];
    assert Sum(s[..2]) == s[0] + s[1];
    assert Sum(s[..3]) == s[0] + s[1] + s[2];
  }

  predicate NonNegative(s: seq<real>) {
    forall j :: 0 <= j < |s| ==> s[j] >= 0.0
  }

  /** A score above `ratio` >= 1/2 of a non-negative total is above half of it. */
  lemma MoreThanHalf(score: real, total: real, ratio: real)
    requires 0.5 <= ratio && 0.0 <= total
    requires score > ratio * total
    ensures 2.0 * score > total
  {
    assert (ratio - 0.5) * total >= 0.0;
  }

  /**
    In a group of four non-negative scores, a score holding more than
    `ratio` >= 1/2 of the group's total is the group's (unique) argmax.
  */
  lemma DominantIsArgMax(s: seq<real>, k: nat, ratio: real)
    requires |s| == 4 && k < 4 && NonNegative(s)
    requires 0.5 <= ratio
    requires s[k] > ratio * Sum(s)
    ensures ArgMax(s) == k
  {
    Sum4(s);
    var total := Sum(s);
    MoreThanHalf(s[k], total, ratio);
    forall j | 0 <= j < 4 && j != k
      ensures s[j] < s[k]
    {
      assert s[j] + s[k] <= total;
    }
  }

  /**
    The frame carries enough power and, at position p, the row score and
    the column score each hold more than `ratio` of their group's total.
  */
  predicate KeyDominates(xp: seq<real>, p: Position, ratio: real)
    requires |xp| == 8 && p.row < 4 && p.col < 3
  {
    && Sum(xp) > PowerThreshold
    && xp[p.row] > ratio * Sum(RowScores(xp))
    && xp[4 + p.col] > ratio * Sum(ColScores(xp))
  }

  /**
    With a ratio of at least 1/2 and non-negative scores (as the single-bin
    estimator's are), a frame decodes to the key at position `p` exactly
    when the frame's power is above the threshold and p's row score and p's
    column score dominate their groups.
  */
  lemma DecideKeyIff(xp: seq<real>, p: Position, ratio: real)
    requires |xp| == 8 && NonNegative(xp)
    requires p.row < 4 && p.col < 3
    requires 0.5 <= ratio
    ensures Decide(xp, ratio) == KeyAt(p) <==> KeyDominates(xp, p, ratio)
  {
    if Decide(xp, ratio) == KeyAt(p) {
      DecidedKeyDominates(xp, p, ratio);
    }
    if KeyDominates(xp, p, ratio) {
      DominantKeyDecided(xp, p, ratio);
    }
  }

  /** A decided key passes the power test and both dominance tests at its position. */
  lemma DecidedKeyDominates(xp: seq<real>, p: Position, ratio: real)
    requires |xp| == 8
    requires p.row < 4 && p.col < 3
    requires Decide(xp, ratio) == KeyAt(p)
    ensures KeyDominates(xp, p, ratio)
  {
    SentinelNotKey();
    DecideRejects(xp, ratio);
    DecideKeyRange(xp, ratio);
    PositionOfKeyAt(p);
    var row, col := RowScores(xp), ColScores(xp);
    assert ArgMax(row) == p.row && ArgMax(col) == p.col;
    assert row[p.row] == xp[p.row] && col[p.col] == xp[4 + p.col];
  }

  /** Dominance at p makes p's row and column the argmaxes, so p's key is decided. */
  lemma DominantKeyDecided(xp: seq<real>, p: Position, ratio: real)
    requires |xp| == 8 && NonNegative(xp)
    requires p.row < 4 && p.col < 3
    requires 0.5 <= ratio
    requires KeyDominates(xp, p, ratio)
    ensures Decide(xp, ratio) == KeyAt(p)
  {
    var row, col := RowScores(xp), ColScores(xp);
    assert row[p.row] == xp[p.row] && col[p.col] == xp[4 + p.col];
    assert NonNegative(row) && NonNegative(col);
    DominantIsArgMax(row, p.row, ratio);
    DominantIsArgMax(col, p.col, ratio);
  }

  /** Frequency of table entry j, in the flattened order of DTMF_FREQ. */
  function Frequency(j: nat): (f: int)
    requires j < 8
    ensures 697 <= f <= 1633
    ensures j < 4 <==> f < 1209
  {
    if j < 4 then RowFreq[j] else ColFreq[j - 4]
  }

  /**
    kf = ff / FS * len(x): the fractional bin of table frequency j for a
    frame of n samples; every table frequency lies below a quarter of the
    sample rate, so every bin lies below n / 4, well under the n / 2 limit.
  */
  function Bin(j: nat, n: nat): (k: real)
    requires j < 8
    ensures 0.0 <= k
    ensures n > 0 ==> k < (n as real) / 4.0
  {
    (Frequency(j) as real) / (SampleRate as real) * (n as real)
  }

  /** The eight scores of a frame, given the single-bin estimator `mgz`. */
  function Scores(x: seq<real>, mgz: (seq<real>, real) -> real): (xp: seq<real>)
    ensures |xp| == 8
  {
    seq(8, j requires 0 <= j < 8 => mgz(x, Bin(j, |x|)))
  }

  /** dtmf_det(x, ratio): the decision rule applied to the frame's eight scores. */
  function DtmfDet(x: seq<real>, ratio: real, mgz: (seq<real>, real) -> real): (r: char)
    ensures IsSymbol(r)
  {
    Decide(Scores(x, mgz), ratio)
  }
}
