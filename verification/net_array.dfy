/** The two `System.Array` operations the attribute copy relies on, with their standard .NET
    behaviour: first on array contents as sequences, then on heap arrays, where the reference
    semantics of `Array.Resize` (same length keeps the same array) become visible. */
module NetArray {
  import opened Wrappers

  /** `System.Array.Resize<T>(ref arr, n)` on contents. A null array or one of another length is
      replaced by a new array of `n` elements that holds the old prefix and the element type's
      default value after it; an array that already has `n` elements is returned as it is. */
  function Resize<T>(arr: Option<seq<T>>, n: nat, default: T): (r: seq<T>)
    ensures |r| == n
    ensures arr.Some? && |arr.value| == n ==> r == arr.value
    ensures arr.Some? ==> forall i :: 0 <= i < n && i < |arr.value| ==> r[i] == arr.value[i]
    ensures forall i :: 0 <= i < n && (arr.None? || |arr.value| <= i) ==> r[i] == default
  {
    match arr
    case None => seq(n, _ => default)
    case Some(a) =>
      if |a| == n then a
      else seq(n, i requires 0 <= i < n => if i < |a| then a[i] else default)
  }

  /** `System.Array.Copy(src, dst, len)` on contents: the first `len` elements of `dst` become
      those of `src` and the rest of `dst` is kept. .NET throws unless `len` fits both arrays. */
  function Copy<T>(src: seq<T>, dst: seq<T>, len: nat): (r: seq<T>)
    requires len <= |src| && len <= |dst|
    ensures |r| == |dst|
    ensures forall i :: 0 <= i < len ==> r[i] == src[i]
    ensures forall i :: len <= i < |dst| ==> r[i] == dst[i]
    ensures len == |src| == |dst| ==> r == src
  {
    src[..len] + dst[len..]
  }

  /** The contents of a nullable heap array. */
  function Contents<T>(a: array?<T>): (r: Option<seq<T>>)
    reads a
    ensures a == null <==> r.None?
    ensures a != null ==> r.value == a[..]
  {
    if a == null then None else Some(a[..])
  }

  /** `System.Array.Copy(src, dst, len)` on heap arrays. `src` and `dst` may be the same array,
      in which case the copy leaves it as it was. */
  method ArrayCopy<T>(src: array<T>, dst: array<T>, len: nat)
    requires len <= src.Length && len <= dst.Length
    modifies dst
    ensures dst[..] == Copy(old(src[..]), old(dst[..]), len)
  {
    var i := 0;
    while i < len
      invariant 0 <= i <= len
      invariant forall j :: 0 <= j < i ==> dst[j] == old(src[j])
      invariant forall j :: i <= j < dst.Length ==> dst[j] == old(dst[j])
      invariant forall j :: i <= j < src.Length ==> src[j] == old(src[j])
    {
      dst[i] := src[i];
      i := i + 1;
    }
  }

  /** `System.Array.Resize<T>(ref arr, n)` on heap arrays: the returned reference is `arr` itself
      when it already has `n` elements and a newly allocated array otherwise. */
  method ResizeArray<T>(arr: array?<T>, n: nat, default: T) returns (r: array<T>)
    ensures arr != null && arr.Length == n ==> r == arr
    ensures arr == null || arr.Length != n ==> fresh(r)
    ensures r[..] == Resize(Contents(arr), n, default)
  {
    if arr != null && arr.Length == n {
      return arr;
    }
    r := new T[n](_ => default);
    if arr != null {
      var keep := if arr.Length < n then arr.Length else n;
      ArrayCopy(arr, r, keep);
    }
  }
}
