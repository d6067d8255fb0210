/** `compareArray`: the shallow, element-wise equality of two arrays that
    decides whether an effect re-runs and whether a cached callback is
    replaced. Elements are compared with `===`, modelled as Dafny equality. */
module ArrayUtils {

  /** `arr1.some((item, index) => item !== arr2[index])` for two arrays of the
      same length: scans from the front and stops at the first mismatch. */
  function SomeDiffers<T(==)>(arr1: seq<T>, arr2: seq<T>): (r: bool)
    requires |arr1| == |arr2|
    ensures r <==> exists i :: 0 <= i < |arr1| && arr1[i] != arr2[i]
  {
    if |arr1| == 0 then false
    else if arr1[0] != arr2[0] then true
    else
      var rest := SomeDiffers(arr1[1..], arr2[1..]);
      assert forall i :: 1 <= i < |arr1| ==> arr1[1..][i - 1] == arr1[i] && arr2[1..][i - 1] == arr2[i];
      rest
  }

  /** `compareArray(arr1, arr2)`: lengths first, and only then the scan. */
  function CompareArray<T(==)>(arr1: seq<T>, arr2: seq<T>): (r: bool)
    ensures r <==> |arr1| == |arr2| && forall i :: 0 <= i < |arr1| ==> arr1[i] == arr2[i]
  {
    |arr1| == |arr2| && !SomeDiffers(arr1, arr2)
  }

  /** Shallow comparison coincides with equality of the two sequences. */
  lemma CompareArrayIsEquality<T>(arr1: seq<T>, arr2: seq<T>)
    ensures CompareArray(arr1, arr2) <==> arr1 == arr2
  {
    if CompareArray(arr1, arr2) {
      assert arr1 == arr2;
    }
  }

  /** Arrays of different lengths never compare equal. */
  lemma DifferentLengthsDiffer<T>(arr1: seq<T>, arr2: seq<T>)
    requires |arr1| != |arr2|
    ensures !CompareArray(arr1, arr2)
  {
  }

  /** Two empty arrays compare equal. */
  lemma EmptyArraysEqual<T>()
    ensures CompareArray<T>([], [])
  {
  }

  /** The comparison does not depend on the order of its arguments. */
  lemma CompareArraySymmetric<T>(arr1: seq<T>, arr2: seq<T>)
    ensures CompareArray(arr1, arr2) == CompareArray(arr2, arr1)
  {
  }

  /** Every array compares equal to itself. */
  lemma CompareArrayReflexive<T>(arr: seq<T>)
    ensures CompareArray(arr, arr)
  {
  }

  /** Replacing one element of an equal pair by a different value makes the
      pair unequal: a changed dependency is always noticed. */
  lemma ChangedElementDiffers<T>(arr1: seq<T>, arr2: seq<T>, i: nat, x: T)
    requires CompareArray(arr1, arr2)
    requires i < |arr1| && x != arr1[i]
    ensures !CompareArray(arr1[i := x], arr2)
    ensures !CompareArray(arr1, arr2[i := x])
  {
    assert arr1[i := x][i] != arr2[i];
    assert arr1[i] != arr2[i := x][i];
  }
}
