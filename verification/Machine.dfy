/** Sizes of the machine's integers: 32 bits to a word and to an `int`, 64 to a `long long`.

    Predicates throughout the project are written `true == (...)` where their parts are not meant to be
    proved one by one: the verifier takes such a body as one fact, which keeps the proofs about it short. */
module Machine {

  const WORD: nat := 0x1_0000_0000
  const LONGLONG: nat := 0x1_0000_0000_0000_0000
  const INT_MAX: nat := 0x7fff_ffff

  /** Whole turns do not show in a word, */
  lemma {:induction false} WordTurns(x: nat, k: nat)
    ensures (x + k * WORD) % WORD == x % WORD
    decreases k
  {
    if k > 0 {
      WordTurns(x, k - 1);
      assert x + k * WORD == (x + (k - 1) * WORD) + WORD;
    }
  }

  /** nor in a `long long`. */
  lemma {:induction false} LongTurns(x: nat, k: nat)
    ensures (x + k * LONGLONG) % LONGLONG == x % LONGLONG
    decreases k
  {
    if k > 0 {
      LongTurns(x, k - 1);
      assert x + k * LONGLONG == (x + (k - 1) * LONGLONG) + LONGLONG;
    }
  }
}
