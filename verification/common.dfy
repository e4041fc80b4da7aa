/** Small shared vocabulary: optional values, entity identities and the
    oracle form of Ruby's `Array#sample`. */
module Common {

  /** The Some/None datatype used in place of Ruby's `nil`. */
  datatype Option<+T> = None | Some(value: T)

  /** Object identity of an entity. A tile's occupant slot holds the id of the
      entity bound to it, standing for the Ruby object reference. */
  type EntityId = nat

  function Abs(n: int): nat { if n < 0 then -n else n }

  /** `xs.sample`, with the random choice supplied as an oracle index `pick`:
      the element at `pick` modulo the length. An empty array samples `nil`. */
  function Sample<T>(xs: seq<T>, pick: nat): (r: Option<T>)
    ensures r.None? <==> |xs| == 0
    ensures r.Some? ==> r.value in xs
  {
    if |xs| == 0 then None else Some(xs[pick % |xs|])
  }

  /** Every element of a non-empty array can be drawn: the oracle loses no
      outcome of the random choice. */
  lemma SampleCovers<T>(xs: seq<T>, i: nat)
    requires i < |xs|
    ensures Sample(xs, i) == Some(xs[i])
  {
  }

  /** `(lo..hi).to_a.sample` with an oracle index. */
  function SampleRange(lo: int, hi: int, pick: nat): (r: int)
    requires lo <= hi
    ensures lo <= r <= hi
  {
    lo + pick % (hi - lo + 1)
  }

  /** Every value of the range is reachable by some oracle index. */
  lemma SampleRangeCovers(lo: int, hi: int, v: int)
    requires lo <= v <= hi
    ensures SampleRange(lo, hi, (v - lo) as nat) == v
  {
  }
}
