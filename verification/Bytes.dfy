/** The byte view of word memory (little-endian), and memcpy between aligned addresses. */
module Bytes {
  import opened Words

  /** Byte k of a word, counting from the least significant. */
  function Digit(w: nat, k: nat): (d: nat) {
    if k == 0 then w % 256 else Digit(w / 256, k - 1)
  }

  function ByteAt(m: Mem, a: int): (d: nat) {
    Digit(Rd(m, a - a % 8), a % 8)
  }

  function ByteFrom(m: Mem, p: int, i: int): (d: nat) {
    ByteAt(m, p + i)
  }

  /** The n bytes at p' in m' are those at p in m. */
  ghost predicate BytesAgree(m: Mem, p: int, m': Mem, p': int, n: int) {
    forall i :: 0 <= i < n ==> ByteFrom(m', p', i) == ByteFrom(m, p, i)
  }

  /** The low k bytes of w over the other bytes of v. */
  function Overlay(v: nat, w: nat, k: nat): (r: nat) {
    if k == 0 then v else w % 256 + 256 * Overlay(v / 256, w / 256, k - 1)
  }

  /** The word that memcpy(dst, src, n) leaves at address a of the destination. */
  function Moved(m: Mem, dst: int, src: int, n: nat, a: int): (w: nat)
    requires a < dst + n
  {
    if a + 8 <= dst + n then Rd(m, src + (a - dst)) else Overlay(Rd(m, a), Rd(m, src + (a - dst)), dst + n - a)
  }

  /** memcpy(dst, src, n) for disjoint ranges that start on word boundaries. */
  function Copy(m: Mem, dst: int, src: int, n: nat): (m': Mem) {
    m + map a | dst <= a < dst + n && (a - dst) % 8 == 0 :: Moved(m, dst, src, n, a)
  }

  lemma CopyFrame(m: Mem, dst: int, src: int, n: nat, room: int)
    requires n <= room && room % 8 == 0
    ensures forall a :: !(dst <= a < dst + room) ==> Rd(Copy(m, dst, src, n), a) == Rd(m, a)
  {
  }

  /** The first n bytes at dst are those at src. */
  lemma CopyCopies(m: Mem, dst: int, src: int, n: nat)
    requires dst % 8 == 0 && src % 8 == 0
    ensures BytesAgree(m, src, Copy(m, dst, src, n), dst, n)
  {
    hide ByteAt, Copy;
    forall i | 0 <= i < n ensures ByteFrom(Copy(m, dst, src, n), dst, i) == ByteFrom(m, src, i) {
      CopyCopiesAt(m, dst, src, n, i);
    }
  }

  lemma CopyCopiesAt(m: Mem, dst: int, src: int, n: nat, i: nat)
    requires dst % 8 == 0 && src % 8 == 0 && i < n
    ensures ByteAt(Copy(m, dst, src, n), dst + i) == ByteAt(m, src + i)
  {
    hide Digit, Overlay, Copy;
    AlignedOffset(dst, i);
    AlignedOffset(src, i);
    var k, o := i % 8, i - i % 8;
    CopyWord(m, dst, src, n, o);
    if o + 8 > n {
      OverlayDigit(Rd(m, dst + o), Rd(m, src + o), n - o, k);
    }
  }

  /** Memory that agrees on aligned words agrees on their bytes. */
  lemma SameBytes(m: Mem, m': Mem, p: int, room: int, n: int)
    requires p % 8 == 0 && room % 8 == 0 && n <= room && Same(m, m', p, p + room)
    ensures BytesAgree(m, p, m', p, n)
  {
  }

  lemma CopyWord(m: Mem, dst: int, src: int, n: nat, o: nat)
    requires o < n && o % 8 == 0
    ensures Rd(Copy(m, dst, src, n), dst + o) == Moved(m, dst, src, n, dst + o)
  {
  }

  lemma AlignedOffset(a: int, i: int)
    requires a % 8 == 0
    ensures (a + i) % 8 == i % 8 && (i - i % 8) % 8 == 0
  {
  }

  lemma {:induction false} OverlayDigit(v: nat, w: nat, k: nat, j: nat)
    requires j < k
    ensures Digit(Overlay(v, w, k), j) == Digit(w, j)
  {
    var rest := Overlay(v / 256, w / 256, k - 1);
    assert (w % 256 + 256 * rest) / 256 == rest && (w % 256 + 256 * rest) % 256 == w % 256;
    if j > 0 {
      OverlayDigit(v / 256, w / 256, k - 1, j - 1);
    }
  }
}
