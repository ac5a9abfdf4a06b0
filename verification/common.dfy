/** Small shared vocabulary: the optional value used for JavaScript's
    `null`/`undefined`, and JavaScript's relative slice indices. */
module Common {

  /** `None` stands for a JavaScript `null` or `undefined`. */
  datatype Option<+T> = None | Some(value: T) {

    /** The value, or `default` when absent (JavaScript's `??`). */
    function GetOr(default: T): T {
      match this
      case Some(v) => v
      case None => default
    }
  }

  /** How `Array.prototype.slice` normalises one index argument against a
      length `n`: a negative index counts from the end, and the result is
      clamped to `0..n`. */
  function RelIndex(k: int, n: nat): (i: nat)
    ensures i <= n
    ensures 0 <= k <= n ==> i == k
    ensures k > n ==> i == n
    ensures k < 0 && -k <= n ==> i == n + k
    ensures k < 0 && -k > n ==> i == 0
  {
    if k < 0 then (if n + k < 0 then 0 else n + k)
    else if k > n then n
    else k
  }

  /** `s.slice(start, end)`. */
  function Slice<T>(s: seq<T>, start: int, end: int): (r: seq<T>)
    ensures RelIndex(start, |s|) <= RelIndex(end, |s|) ==> r == s[RelIndex(start, |s|)..RelIndex(end, |s|)]
    ensures RelIndex(start, |s|) > RelIndex(end, |s|) ==> r == []
  {
    var i := RelIndex(start, |s|);
    var j := RelIndex(end, |s|);
    if i <= j then s[i..j] else []
  }

  /** `s.slice(start)`. */
  function SliceFrom<T>(s: seq<T>, start: int): (r: seq<T>)
    ensures r == s[RelIndex(start, |s|)..]
  {
    s[RelIndex(start, |s|)..]
  }

  /** Slicing a prefix and the matching suffix at the same (possibly
      negative) index gives back the whole sequence. */
  lemma SliceSplits<T>(s: seq<T>, k: int)
    ensures Slice(s, 0, k) + SliceFrom(s, k) == s
    ensures Slice(s, 0, k) == s[..RelIndex(k, |s|)]
  {
    assert RelIndex(0, |s|) == 0;
    assert s[..RelIndex(k, |s|)] + s[RelIndex(k, |s|)..] == s;
  }

  /** No element occurs twice. */
  predicate Distinct<T(==)>(s: seq<T>) {
    forall i, j :: 0 <= i < j < |s| ==> s[i] != s[j]
  }
}
