/** The generic slice reversal of the top-level package: a fresh slice of
    the same length, filled back to front. */
module Reversal {

  /** The reference definition: the last element, then the rest reversed. */
  function Reversed<T>(s: seq<T>): (r: seq<T>)
    ensures |r| == |s|
    decreases |s|
  {
    if |s| == 0 then [] else [s[|s| - 1]] + Reversed(s[..|s| - 1])
  }

  /** Element i of the input lands at position |s| - 1 - i. */
  lemma {:induction false} ReversedIndex<T>(s: seq<T>)
    ensures forall i :: 0 <= i < |s| ==> Reversed(s)[|s| - 1 - i] == s[i]
    decreases |s|
  {
    if |s| > 0 {
      var init := s[..|s| - 1];
      ReversedIndex(init);
      forall i | 0 <= i < |s|
        ensures Reversed(s)[|s| - 1 - i] == s[i]
      {
        if i < |s| - 1 {
          assert Reversed(s)[|s| - 1 - i] == Reversed(init)[|init| - 1 - i];
          assert init[i] == s[i];
        }
      }
    }
  }

  /** Reversing twice gives the input back. */
  lemma Involution<T>(s: seq<T>)
    ensures Reversed(Reversed(s)) == s
  {
    var r := Reversed(s);
    ReversedIndex(s);
    ReversedIndex(r);
    forall i | 0 <= i < |s|
      ensures Reversed(r)[i] == s[i]
    {
      assert Reversed(r)[|r| - 1 - (|s| - 1 - i)] == r[|s| - 1 - i];
    }
  }

  /** `Reverse`: allocates the result and writes input element i at
      position len(s)-1-i. The input is left as it was. */
  method Reverse<T(0)>(s: array<T>) returns (r: array<T>)
    ensures fresh(r)
    ensures r[..] == Reversed(s[..])
    ensures unchanged(s)
  {
    r := new T[s.Length];
    for i := 0 to s.Length
      invariant forall j :: 0 <= j < i ==> r[s.Length - 1 - j] == s[j]
    {
      r[s.Length - 1 - i] := s[i];
    }
    ReversedIndex(s[..]);
    forall k | 0 <= k < s.Length
      ensures r[..][k] == Reversed(s[..])[k]
    {
      var j := s.Length - 1 - k;
      assert r[s.Length - 1 - j] == s[j];
    }
  }

  /** The table-driven cases: integers, the empty slice, strings, and a
      single string. */
  lemma Examples()
    ensures Reversed([1, 2, 3]) == [3, 2, 1]
    ensures Reversed<int>([]) == []
    ensures Reversed(["a", "b", "c"]) == ["c", "b", "a"]
    ensures Reversed(["a"]) == ["a"]
  {
    assert [1, 2, 3][..2] == [1, 2];
    assert [1, 2][..1] == [1];
    assert ["a", "b", "c"][..2] == ["a", "b"];
    assert ["a", "b"][..1] == ["a"];
  }
}
