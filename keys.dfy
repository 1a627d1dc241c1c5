/**
  The process-wide constants of the DTMF keypad codec: sample rate, the
  12-symbol keypad alphabet, the "invalid" sentinel and the 2x4 frequency
  table, together with the key <-> (row, column) mapping shared by the
  tone generator (divmod of the key's index by 3) and the frame detector
  (3 * row + column).
*/
module DtmfKeys {
  import opened Wrappers

  /** Sample rate, in Hz. */
  const SampleRate: nat := 8000

  /** The keypad alphabet, laid out as 4 rows of 3 columns. */
  const Keys: string := "123456789*0#"

  /** The symbol the detector returns for a frame that carries no key. */
  const Invalid: char := 'x'

  /** Row (low) frequencies and column (high) frequencies, in Hz. */
  const RowFreq: seq<int> := [697, 770, 852, 941]
  const ColFreq: seq<int> := [1209, 1336, 1477, 1633]

  /** What a frame detection may be: a key or the sentinel. */
  predicate IsSymbol(c: char) {
    c in Keys || c == Invalid
  }

  /** A (row, column) position on the keypad. */
  datatype Position = Position(row: nat, col: nat)

  /** The first index of `c` in `s`, or None when `c` does not occur (str.index raising). */
  function IndexOf(s: string, c: char): (r: Option<nat>)
    ensures r.None? <==> c !in s
    ensures r.Some? ==> r.value < |s| && s[r.value] == c && c !in s[..r.value]
  {
    if |s| == 0 then None
    else if s[0] == c then Some(0)
    else match IndexOf(s[1..], c)
      case None => None
      case Some(k) => assert s[1..][..k] == s[1..k+1]; Some(k + 1)
  }

  /** The key at a keypad position: the alphabet entry 3 * row + col. */
  function KeyAt(p: Position): (c: char)
    requires p.row < 4 && p.col < 3
    ensures c in Keys
  {
    Keys[3 * p.row + p.col]
  }

  /** divmod(DTMF_KEYS.index(c), 3): the keypad position of `c`, None when `c` is no key. */
  function KeyPosition(c: char): (r: Option<Position>)
    ensures r.None? <==> c !in Keys
    ensures r.Some? ==> r.value.row < 4 && r.value.col < 3 && KeyAt(r.value) == c
  {
    match IndexOf(Keys, c)
    case None => None
    case Some(k) => Some(Position(k / 3, k % 3))
  }

  /** The sentinel is not a key. */
  lemma SentinelNotKey()
    ensures Invalid !in Keys
  {
  }

  /** The twelve keys are pairwise distinct. */
  lemma KeysDistinct()
    ensures forall i, j :: 0 <= i < j < |Keys| ==> Keys[i] != Keys[j]
  {
  }

  /** The four row frequencies are distinct, and so are the four column frequencies. */
  lemma FrequenciesDistinct(i: nat, j: nat, k: nat, l: nat)
    requires i < 4 && j < 4 && k < 4 && l < 4
    ensures RowFreq[i] == RowFreq[j] ==> i == j
    ensures ColFreq[k] == ColFreq[l] ==> k == l
  {
  }

  /** Looking up the k-th key finds index k: the first occurrence is the only one. */
  lemma IndexOfKey(k: nat)
    requires k < |Keys|
    ensures IndexOf(Keys, Keys[k]) == Some(k)
  {
    KeysDistinct();
  }

  lemma DivMod3(row: nat, col: nat)
    requires col < 3
    ensures (3 * row + col) / 3 == row && (3 * row + col) % 3 == col
  {
  }

  /** Decoding a position and looking the key up again gives the position back. */
  lemma PositionOfKeyAt(p: Position)
    requires p.row < 4 && p.col < 3
    ensures KeyPosition(KeyAt(p)) == Some(p)
  {
    IndexOfKey(3 * p.row + p.col);
    DivMod3(p.row, p.col);
  }

  /** Different positions hold different keys. */
  lemma KeyAtInjective(p: Position, q: Position)
    requires p.row < 4 && p.col < 3 && q.row < 4 && q.col < 3
    requires KeyAt(p) == KeyAt(q)
    ensures p == q
  {
    PositionOfKeyAt(p);
    PositionOfKeyAt(q);
  }

  /**
    The key <-> position mapping is a bijection between the 12 keys and
    {0..3} x {0..2}: both round trips hold, and column 3 never occurs.
  */
  lemma KeyPositionBijection(c: char, p: Position)
    ensures c in Keys ==> KeyPosition(c).Some? && KeyPosition(c).value.col != 3
    ensures c in Keys && p.row < 4 && p.col < 3 ==> (KeyPosition(c) == Some(p) <==> KeyAt(p) == c)
  {
    if c in Keys && p.row < 4 && p.col < 3 && KeyAt(p) == c {
      PositionOfKeyAt(p);
    }
  }
}
