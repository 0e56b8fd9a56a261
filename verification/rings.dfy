/** Reading an array as a ring: what the byte buffer and the log queue have in common. */
module Rings {
  import BignumMath

  /** Slot of the i-th element after index r. */
  function Slot(r: nat, i: nat, n: nat): (k: nat)
    requires r < n && i <= n
    ensures k < n
  {
    if r + i < n then r + i else r + i - n
  }

  /** It is the remainder the code computes. */
  lemma Wrap(r: nat, i: nat, n: nat)
    requires r < n && i <= n
    ensures (r + i) % n == Slot(r, i, n)
  {
    BignumMath.DivUnique(r + i, n, if r + i < n then 0 else 1, Slot(r, i, n));
  }

  lemma SlotSum(r: nat, u: nat, i: nat, n: nat)
    requires r < n && u + i < n && i > 0
    ensures Slot(Slot(r, u, n), i, n) == Slot(r, u + i, n) == Slot(Slot(Slot(r, u, n), i - 1, n), 1, n)
  {
  }

  /** The `k` elements from index `r` on, around the end of the array. */
  function Ring<T>(d: seq<T>, r: nat, k: nat): (s: seq<T>)
    requires r < |d| && k <= |d|
    ensures |s| == k
  {
    seq(k, i requires 0 <= i < k => d[Slot(r, i, |d|)])
  }

  lemma RingSnoc<T>(d: seq<T>, r: nat, k: nat, b: T)
    requires r < |d| && k < |d|
    ensures Ring(d[Slot(r, k, |d|) := b], r, k + 1) == Ring(d, r, k) + [b]
  {
  }

  /** Storing the next element of `src` behind the `k` elements of the ring. */
  lemma RingStore<T>(d: seq<T>, r: nat, k: nat, was: seq<T>, src: seq<T>, i: nat)
    requires r < |d| && k + i < |d| && i < |src| && |was| == k && Ring(d, r, k + i) == was + src[..i]
    ensures Ring(d[Slot(r, k + i, |d|) := src[i]], r, k + i + 1) == was + src[..i + 1]
  {
    RingSnoc(d, r, k + i, src[i]);
    assert src[..i + 1] == src[..i] + [src[i]];
  }

  lemma RingDrop<T>(d: seq<T>, r: nat, k: nat, n: nat)
    requires r < |d| && n <= k <= |d|
    ensures Ring(d, Slot(r, n, |d|), k - n) == Ring(d, r, k)[n..]
  {
    var a, b := Ring(d, Slot(r, n, |d|), k - n), Ring(d, r, k)[n..];
    assert forall i | 0 <= i < k - n :: a[i] == b[i];
  }

  /** Elements before the end of the array. */
  function Contiguous(r: nat, unread: nat, size: nat): nat
    requires r < size && unread < size
  {
    if r + unread >= size then size - r else unread
  }

  lemma RingPrefix<T>(d: seq<T>, r: nat, k: nat, n: nat)
    requires r < |d| && k < |d| && n <= Contiguous(r, k, |d|)
    ensures n <= k && Ring(d, r, k)[..n] == d[r..r + n]
  {
  }

  lemma SliceOn<T>(s: seq<T>, a: nat, n: nat)
    requires a + n <= |s|
    ensures s[..a] + s[a..][..n] == s[..a + n]
    ensures s[a..][n..] == s[a + n..]
  {
  }
}
