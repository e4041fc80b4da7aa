/** `Dice.roll(count)`: the sum of `count` draws from the die's face range. */
module Dice {

  /** The six-sided die's faces run from 1 to 6. */
  const MinValue: int := 1
  const MaxValue: int := 6

  predicate FacesValid(faces: seq<int>, lo: int, hi: int) {
    forall i :: 0 <= i < |faces| ==> lo <= faces[i] <= hi
  }

  /** The reference sum of a sequence of faces. */
  function Sum(faces: seq<int>): int {
    if |faces| == 0 then 0 else Sum(faces[..|faces| - 1]) + faces[|faces| - 1]
  }

  /** A sum of n faces of a die with faces lo..hi lies in [n*lo, n*hi]. */
  lemma {:induction false} SumBounds(faces: seq<int>, lo: int, hi: int)
    requires FacesValid(faces, lo, hi)
    ensures |faces| * lo <= Sum(faces) <= |faces| * hi
  {
    if |faces| > 0 {
      var init := faces[..|faces| - 1];
      assert FacesValid(init, lo, hi);
      SumBounds(init, lo, hi);
    }
  }

  /** `roll(count)`: one draw per iteration, accumulated into `total`. The
      draws are the oracle `faces`, each within the die's range. */
  method Roll(count: nat, faces: seq<int>) returns (total: int)
    requires |faces| == count
    requires FacesValid(faces, MinValue, MaxValue)
    ensures total == Sum(faces)
    ensures count * MinValue <= total <= count * MaxValue
  {
    total := 0;
    var i := 0;
    while i < count
      invariant 0 <= i <= count
      invariant total == Sum(faces[..i])
    {
      assert faces[..i + 1][..i] == faces[..i];
      total := total + faces[i];
      i := i + 1;
    }
    assert faces[..count] == faces;
    SumBounds(faces, MinValue, MaxValue);
  }
}
