/** The Python list operations the sequencing step uses: the reversing slice
    `xs[::-1]` and `xs.index(x)`. */
module PyList {
  import opened Errors

  /** `xs[::-1]`: the elements read from the last one back to the first. */
  function Reverse<T>(xs: seq<T>): (r: seq<T>)
    ensures |r| == |xs|
    ensures forall k :: 0 <= k < |xs| ==> r[k] == xs[|xs| - 1 - k]
  {
    if xs == [] then []
    else [xs[|xs| - 1]] + Reverse(xs[..|xs| - 1])
  }

  /** Reversing a concatenation reverses the order of the two parts. */
  lemma ReverseConcat<T>(a: seq<T>, b: seq<T>)
    ensures Reverse(a + b) == Reverse(b) + Reverse(a)
  {
    var r, l := Reverse(a + b), Reverse(b) + Reverse(a);
    forall k | 0 <= k < |a + b|
      ensures r[k] == l[k]
    {
      if k < |b| {
        assert (a + b)[|a + b| - 1 - k] == b[|b| - 1 - k];
      } else {
        assert (a + b)[|a + b| - 1 - k] == a[|a| - 1 - (k - |b|)];
      }
    }
  }

  /** `xs.index(x)`: the first position holding `x`; a ValueError when no
      element equals `x`. */
  function IndexOf<T(==)>(xs: seq<T>, x: T): (r: Result<nat>)
    ensures r.Success? <==> x in xs
    ensures r.Success? ==> r.value < |xs| && xs[r.value] == x
    ensures r.Success? ==> forall j :: 0 <= j < r.value ==> xs[j] != x
    ensures r.Failure? ==> r.error.ValueError?
  {
    if xs == [] then Failure(ValueError("is not in list"))
    else if xs[0] == x then Success(0)
    else
      match IndexOf(xs[1..], x)
      case Success(i) => Success(i + 1)
      case Failure(e) => Failure(e)
  }
}
