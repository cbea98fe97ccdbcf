/** Bytes as the `Uint8Array` values of the client, and the JavaScript
    array helpers the key-handling code relies on. */
module Bytes {

  newtype byte = x: int | 0 <= x < 256

  /** `new Uint8Array(n)`: n zero bytes. */
  function Zeros(n: nat): (r: seq<byte>)
    ensures |r| == n
    ensures forall i :: 0 <= i < n ==> r[i] == 0
  {
    seq(n, _ => 0)
  }

  /** `a.slice(from, to)` for non-negative bounds: both bounds are clamped
      to the length, and an empty result comes back when they cross. */
  function Slice<T>(a: seq<T>, from: nat, to: nat): (r: seq<T>)
    ensures from <= to <= |a| ==> r == a[from..to]
    ensures from <= |a| < to ==> r == a[from..]
    ensures |r| == if from <= to && from <= |a| then (if to <= |a| then to else |a|) - from else 0
  {
    var hi := if to <= |a| then to else |a|;
    if from <= hi then a[from..hi] else []
  }

  /** The two halves of a key cut at `mid` rebuild the key. */
  lemma SliceHalvesRebuild<T>(a: seq<T>, mid: nat)
    requires mid <= |a|
    ensures Slice(a, 0, mid) + Slice(a, mid, |a|) == a
  {
    assert a[0..mid] + a[mid..|a|] == a;
  }
}
