/** Range slicing `&a[lo..hi]` of an array or string, and the fixed array
    slice the program prints. */
module Slices {

  /** A Rust `i32`. */
  newtype i32 = x: int | -0x8000_0000 <= x < 0x8000_0000

  /** The outcome of an index operation: a view, or the panic Rust raises
      when the range is reversed or runs past the end. */
  datatype Slice<+T> = View(elems: seq<T>) | Panic

  /** `&a[lo..hi]`: the half-open range of `a` from `lo` up to, not
      including, `hi`; a panic unless `lo <= hi <= |a|`. */
  function Range<T>(a: seq<T>, lo: nat, hi: nat): (r: Slice<T>)
    ensures r.View? <==> lo <= hi <= |a|
    ensures r.View? ==> |r.elems| == hi - lo
    ensures r.View? ==> forall k :: 0 <= k < hi - lo ==> r.elems[k] == a[lo + k]
  {
    if lo <= hi <= |a| then View(a[lo..hi]) else Panic
  }

  /** `&a[..]`: the full range, a view of all of `a`. */
  function Full<T>(a: seq<T>): (r: Slice<T>)
    ensures r == View(a)
  {
    Range(a, 0, |a|)
  }

  /** A range view is determined by its contents: every successful range is
      the contiguous run `a[lo..hi]`, and adjacent ranges join up. */
  lemma RangeSplit<T>(a: seq<T>, lo: nat, mid: nat, hi: nat)
    requires lo <= mid <= hi <= |a|
    ensures Range(a, lo, mid).View? && Range(a, mid, hi).View? && Range(a, lo, hi).View?
    ensures Range(a, lo, mid).elems + Range(a, mid, hi).elems == Range(a, lo, hi).elems
  {
    var left, right, whole := Range(a, lo, mid).elems, Range(a, mid, hi).elems, Range(a, lo, hi).elems;
    assert |left + right| == |whole|;
    forall k | 0 <= k < |whole|
      ensures (left + right)[k] == whole[k]
    {
      if k < |left| {
        assert (left + right)[k] == left[k] == a[lo + k];
      } else {
        assert (left + right)[k] == right[k - |left|] == a[mid + (k - |left|)];
      }
    }
  }

  /** The array the program declares, `[i32; 10]`. */
  const Arr: seq<i32> := [2, 4, 3, 5, 3, 1, 4, 5, 6, 3]

  /** `&arr[2..7]` is in bounds, holds five elements, its k-th element is
      `arr[2 + k]`, and it is `[3, 5, 3, 1, 4]`. */
  lemma ArrSlice()
    ensures Range(Arr, 2, 7).View?
    ensures |Range(Arr, 2, 7).elems| == 5
    ensures forall k :: 0 <= k < 5 ==> Range(Arr, 2, 7).elems[k] == Arr[2 + k]
    ensures Range(Arr, 2, 7).elems == [3, 5, 3, 1, 4]
  {
  }
}
