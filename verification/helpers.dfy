/** `Helpers.FillArray`: pads a sequence up to a length with a fill element. */
module Helpers {

  /** Pads `arr` with `element` (by default `""`) up to `length`; a sequence that is
      already long enough comes back unchanged, so nothing is ever truncated. */
  function FillArray(arr: seq<string>, length: int, element: string := ""): (r: seq<string>)
    ensures length <= |arr| ==> r == arr
    ensures |r| == if length <= |arr| then |arr| else length
    ensures r[..|arr|] == arr
    ensures forall i :: |arr| <= i < |r| ==> r[i] == element
  {
    var count := length - |arr|;
    if count > 0 then arr + seq(count, _ => element) else arr
  }

  /** Filling to a shorter length first and then to a longer one is the same as filling
      to the longer one directly; in particular filling twice is filling once. */
  lemma FillArrayCompose(arr: seq<string>, m: int, n: int, element: string)
    requires m <= n
    ensures FillArray(FillArray(arr, m, element), n, element) == FillArray(arr, n, element)
  {
    var once := FillArray(arr, n, element);
    var twice := FillArray(FillArray(arr, m, element), n, element);
    assert |twice| == |once|;
    forall i | 0 <= i < |once|
      ensures twice[i] == once[i]
    {
      if i < |arr| {
        assert once[..|arr|][i] == arr[i];
        assert FillArray(arr, m, element)[..|arr|][i] == arr[i];
      }
    }
  }
}
