/** `chunkArray` and `getSequence` of src/common/array.ts. */
module CommonArray {
  import opened Wrappers
  import opened Errors
  import opened JsNumber
  import Arithmetic

  const ChunkSizeMessage := "Chunk size must be a positive integer"
  const SequenceSizeMessage := "Sequence size must be a non-negative integer"

  /** The largest length an Array may have, 2^32 - 1; `new Array(len)` throws
      a RangeError for a longer one. */
  const MaxArrayLength: nat := 0xFFFF_FFFF
  const InvalidArrayLength := JsError(RangeError, "Invalid array length", None)

  function Min(x: int, y: int): int {
    if x <= y then x else y
  }

  /** `a.slice(i)` for i >= 0: everything from index i on, or nothing. */
  function Drop<T>(a: seq<T>, i: nat): seq<T> {
    if i <= |a| then a[i..] else []
  }

  /** `a.slice(0, k)` for k >= 0: the first k elements, or all of them. */
  function Take<T>(a: seq<T>, k: nat): seq<T> {
    if k <= |a| then a[..k] else a
  }

  /** `a.slice(lo, hi)` for 0 <= lo <= hi. */
  function Slice<T>(a: seq<T>, lo: nat, hi: nat): seq<T>
    requires lo <= hi
  {
    Take(Drop(a, lo), hi - lo)
  }

  /** The chunks of `a` of size n, in order: a first slice of (at most) n
      elements followed by the chunks of the rest. */
  function Chunks<T>(a: seq<T>, n: nat): seq<seq<T>>
    requires n > 0
    decreases |a|
  {
    if |a| == 0 then [] else [Take(a, n)] + Chunks(Drop(a, n), n)
  }

  /** The concatenation of a sequence of sequences. */
  function Flatten<T>(ss: seq<seq<T>>): seq<T> {
    if ss == [] then [] else ss[0] + Flatten(ss[1..])
  }

  lemma DropDrop<T>(a: seq<T>, i: nat, k: nat)
    ensures Drop(Drop(a, i), k) == Drop(a, i + k)
  {
  }

  /** chunkArray: a loop that pushes `array.slice(i, i + chunkSize)` for
      i = 0, chunkSize, 2 * chunkSize, ... while i < array.length. */
  method ChunkArray<T>(arr: seq<T>, chunkSize: real) returns (r: Result<seq<seq<T>>, JsError>)
    ensures r.Failure? <==> chunkSize <= 0.0 || !IsInteger(chunkSize)
    ensures r.Failure? ==> r.error == JsError(ArrayError, ChunkSizeMessage, None)
    ensures r.Success? ==> r.value == Chunks(arr, chunkSize.Floor)
  {
    if chunkSize <= 0.0 || !IsInteger(chunkSize) {
      return Failure(NewBaseError(ArrayError, Some(ChunkSizeMessage), None));
    }
    var n: nat := chunkSize.Floor;
    var chunkedArray: seq<seq<T>> := [];
    var i: nat := 0;
    while i < |arr|
      invariant chunkedArray + Chunks(Drop(arr, i), n) == Chunks(arr, n)
      decreases |arr| - i
    {
      DropDrop(arr, i, n);
      chunkedArray := chunkedArray + [Slice(arr, i, i + n)];
      i := i + n;
    }
    return Success(chunkedArray);
  }

  /** Concatenating the chunks in order gives back the array. */
  lemma {:induction false} ChunksFlatten<T>(a: seq<T>, n: nat)
    requires n > 0
    ensures Flatten(Chunks(a, n)) == a
    decreases |a|
  {
    if |a| > 0 {
      ChunksFlatten(Drop(a, n), n);
      var c := Chunks(a, n);
      assert c[1..] == Chunks(Drop(a, n), n);
    }
  }

  /** Every chunk is non-empty and at most n long, and every chunk but the
      last is exactly n long. */
  lemma {:induction false} ChunkSizes<T>(a: seq<T>, n: nat)
    requires n > 0
    ensures forall k :: 0 <= k < |Chunks(a, n)| ==> 0 < |Chunks(a, n)[k]| <= n
    ensures forall k :: 0 <= k < |Chunks(a, n)| - 1 ==> |Chunks(a, n)[k]| == n
    decreases |a|
  {
    if |a| > 0 {
      ChunkSizes(Drop(a, n), n);
      var c := Chunks(a, n);
      forall k | 1 <= k < |c|
        ensures c[k] == Chunks(Drop(a, n), n)[k - 1]
      {
      }
    }
  }

  /** The number of chunks is the ceiling of |a| / n: an empty array has
      none, and otherwise (count - 1) * n < |a| <= count * n. */
  lemma {:induction false} ChunkCount<T>(a: seq<T>, n: nat)
    requires n > 0
    ensures |Chunks(a, n)| == 0 <==> a == []
    ensures (|Chunks(a, n)| - 1) * n < |a| <= |Chunks(a, n)| * n
    ensures |Chunks(a, n)| == (|a| + n - 1) / n
    decreases |a|
  {
    var c := |Chunks(a, n)|;
    if |a| > 0 {
      ChunkCount(Drop(a, n), n);
      assert c - 1 == |Chunks(Drop(a, n), n)|;
      if |a| <= n {
        assert Drop(a, n) == [];
      } else {
        assert |Drop(a, n)| == |a| - n;
        assert (c - 1) * n == (c - 2) * n + n;
      }
    }
    CeilingDiv(|a|, n, c);
  }

  /** q is the ceiling of x / n when (q - 1) * n < x <= q * n. */
  lemma CeilingDiv(x: nat, n: nat, q: int)
    requires n > 0 && (q - 1) * n < x <= q * n
    ensures q == (x + n - 1) / n
  {
    Arithmetic.DivModUnique(x + n - 1, n, q, x + n - 1 - q * n);
  }

  /** Chunk k is `a[k * n .. min((k + 1) * n, |a|)]`. */
  lemma {:induction false} ChunkAt<T>(a: seq<T>, n: nat, k: nat)
    requires n > 0 && k < |Chunks(a, n)|
    ensures k * n < |a|
    ensures Chunks(a, n)[k] == a[k * n .. Min(k * n + n, |a|)]
    decreases |a|
  {
    if k == 0 {
      assert Chunks(a, n)[0] == Take(a, n);
    } else {
      ChunkAt(Drop(a, n), n, k - 1);
      MulStep(k, n);
      ChunkStep(a, n, k, (k - 1) * n, k * n);
    }
  }

  lemma MulStep(k: int, n: int)
    ensures k * n == (k - 1) * n + n
  {
  }

  /** Chunk k of a is chunk k - 1 of the rest, shifted by n. */
  lemma ChunkStep<T>(a: seq<T>, n: nat, k: nat, j: nat, lo: nat)
    requires n > 0 && 0 < k < |Chunks(a, n)| && lo == j + n
    requires j < |Drop(a, n)|
    requires Chunks(Drop(a, n), n)[k - 1] == Drop(a, n)[j .. Min(j + n, |Drop(a, n)|)]
    ensures lo < |a| && Chunks(a, n)[k] == a[lo .. Min(lo + n, |a|)]
  {
    var rest := Drop(a, n);
    assert Chunks(a, n)[k] == Chunks(rest, n)[k - 1];
    assert |a| > n;
    var hi := Min(j + n, |rest|);
    assert n + hi == Min(lo + n, |a|);
    SliceOfSuffix(a, n, j, hi);
  }

  lemma SliceOfSuffix<T>(a: seq<T>, n: nat, x: nat, y: nat)
    requires n <= |a| && x <= y <= |a| - n
    ensures Drop(a, n)[x..y] == a[n + x .. n + y]
  {
  }

  /** `Array.from({ length: len }, (_, i) => i)` for a length already known to
      be a non-negative integer: the array is created with `new Array(len)`,
      which throws a RangeError past the maximum array length. */
  function IndexArray(len: nat): (r: Result<seq<int>, JsError>)
    ensures r.Failure? <==> len > MaxArrayLength
    ensures r.Failure? ==> r.error == InvalidArrayLength
    ensures r.Success? ==> |r.value| == len && forall i :: 0 <= i < len ==> r.value[i] == i
  {
    if len > MaxArrayLength then Failure(InvalidArrayLength) else Success(seq(len, i => i))
  }

  /** getSequence: `Array.from({ length: seqSize }, (_, i) => i)` after a
      check that seqSize is a non-negative integer. The RangeError of a too
      long array is not caught. */
  function GetSequence(seqSize: real): (r: Result<seq<int>, JsError>)
    ensures r.Failure? <==>
      seqSize < 0.0 || !IsInteger(seqSize) || seqSize > MaxArrayLength as real
    ensures seqSize < 0.0 || !IsInteger(seqSize) ==>
      r == Failure(JsError(ArrayError, SequenceSizeMessage, None))
    ensures 0.0 <= seqSize && IsInteger(seqSize) && seqSize > MaxArrayLength as real ==>
      r == Failure(InvalidArrayLength)
    ensures r.Success? ==> |r.value| == seqSize.Floor
    ensures r.Success? ==> forall i :: 0 <= i < |r.value| ==> r.value[i] == i
  {
    if seqSize < 0.0 || !IsInteger(seqSize) then
      Failure(NewBaseError(ArrayError, Some(SequenceSizeMessage), None))
    else
      IndexArray(seqSize.Floor)
  }

  /** The longest sequence has 2^32 - 1 elements; one more is a RangeError,
      not an ArrayError. */
  lemma SequenceLengthLimit()
    ensures GetSequence(4294967295.0).Success?
    ensures GetSequence(4294967296.0) == Failure(InvalidArrayLength)
  {
  }

  /** The sequence of size n + 1 is the sequence of size n with n appended,
      and the one of size 0 is empty. */
  lemma SequenceGrows(n: nat)
    requires n < MaxArrayLength
    ensures GetSequence(0.0) == Success([])
    ensures GetSequence(n as real).Success? && GetSequence((n + 1) as real).Success?
    ensures GetSequence((n + 1) as real).value == GetSequence(n as real).value + [n]
  {
  }
}
