/** Physical memory, addressed by bytes and read and written in aligned words. */
module Memory {
  /** Words that were never written hold whatever the machine started with: the model reads them as 0. */
  type Mem = map<int, int>

  function Read(m: Mem, a: int): int {
    if a in m then m[a] else 0
  }

  /** Both memories hold the same words at the addresses in [lo, hi). */
  ghost predicate SameOn(m: Mem, m': Mem, lo: int, hi: int) {
    forall a :: lo <= a < hi ==> Read(m', a) == Read(m, a)
  }

  /** m with the words in [lo, hi) replaced by those of junk, where junk has one. */
  function Scribble(m: Mem, junk: Mem, lo: int, hi: int): (m': Mem)
    ensures forall a :: !(lo <= a < hi) ==> Read(m', a) == Read(m, a)
  {
    m + map a | a in junk && lo <= a < hi :: junk[a]
  }
}
