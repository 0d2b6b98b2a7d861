/** 32-bit arithmetic that wraps. */
module Words {

  const WORD: nat := 0x1_0000_0000
  const HALF: nat := 0x8000_0000

  /** Differences survive wrapping. */
  lemma ModDifference(a: nat, b: nat)
    ensures (a % WORD - b % WORD) % WORD == (a - b) % WORD
  {
    var qa, qb := a / WORD, b / WORD;
    assert a - b == (a % WORD - b % WORD) + (qa - qb) * WORD;
  }

  lemma ModSum(a: int, b: int)
    ensures (a % WORD + b) % WORD == (a + b) % WORD
  {
    assert a + b == (a % WORD + b) + (a / WORD) * WORD;
  }

  lemma Remainder(d: int, q: int, r: nat)
    requires r < WORD && d == q * WORD + r
    ensures d % WORD == r
  {
  }
}
