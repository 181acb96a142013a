/** Word-granular memory: one value per 8-byte word, keyed by the word's byte address. */
module Words {

  /** Words that were never written read as 0. */
  type Mem = map<int, nat>

  function Rd(m: Mem, a: int): (v: nat) {
    if a in m then m[a] else 0
  }

  /** The two memories agree on the words that start in [lo, hi). */
  ghost predicate Same(m: Mem, m': Mem, lo: int, hi: int) {
    forall a :: lo <= a < hi ==> Rd(m', a) == Rd(m, a)
  }
}
