/** Types shared by the modules of this project. */
module Base {

  type byte = x: int | 0 <= x < 256

  type Bytes = seq<byte>

  type Deep = k: nat | k > 2 witness 3

  /** How often a folded definition is wrapped; which number it is does not matter. A definition that counts down
      from it is expanded only by the lemmas that say so, which keeps the proofs around it small. */
  ghost const FOLDS: Deep := var k: Deep :| k > 2; k

  datatype Option<+T> = None | Some(value: T)

  datatype Result<+T, +E> = Ok(value: T) | Err(error: E)

  function Zeros(n: nat): (z: Bytes)
    ensures |z| == n
    ensures forall i :: 0 <= i < n ==> z[i] == 0
  {
    seq(n, i => 0)
  }

  function Min(a: nat, b: nat): nat {
    if a < b then a else b
  }

  /** A slice of a slice. */
  lemma SliceOfSlice<T>(s: seq<T>, lo: nat, hi: nat, i: nat, j: nat)
    requires lo <= hi <= |s| && i <= j <= hi - lo
    ensures s[lo..hi][i..j] == s[lo + i..lo + j]
  {
    forall k | 0 <= k < j - i
      ensures s[lo..hi][i..j][k] == s[lo + i..lo + j][k]
    {
      assert s[lo..hi][i + k] == s[lo + (i + k)];
    }
  }
}
