/** The CPW ("compact packed weights") encoder: for every trait category, the
    running sums of its weights are packed most significant first into the
    byte lanes of one integer, above a lowest byte holding the number of
    weights minus one, and the integer is rendered with `hex()`. */
module CpwEncoder {
  import opened Bits
  import opened HexText

  /** The weights of one trait category, in trait order. */
  type Weights = seq<nat>

  /** The categories in the mapping's iteration order; the names are never read. */
  type TraitWeightings = seq<(string, Weights)>

  /** The total of the weights. */
  function Sum(w: Weights): nat
  {
    if w == [] then 0 else w[0] + Sum(w[1..])
  }

  /** `itertools.accumulate` started from a running total. */
  function Accumulate(w: Weights, total: nat): (p: seq<nat>)
    ensures |p| == |w|
  {
    if w == [] then [] else [total + w[0]] + Accumulate(w[1..], total + w[0])
  }

  /** `list(itertools.accumulate(w))`: the inclusive running sums. */
  function PrefixSums(w: Weights): (p: seq<nat>)
    ensures |p| == |w|
  {
    Accumulate(w, 0)
  }

  /** `s[::-1]`. */
  function Reverse<T>(s: seq<T>): (r: seq<T>)
    ensures |r| == |s|
  {
    if s == [] then [] else Reverse(s[1..]) + [s[0]]
  }

  /** The accumulator after the packing loop has gone through `lanes`: each
      value is ORed in and the accumulator is then shifted left by 8 bits. */
  function Pack(lanes: seq<nat>): (acc: nat)
  {
    if lanes == [] then 0 else Or(Pack(lanes[..|lanes| - 1]), lanes[|lanes| - 1]) * 256
  }

  /** The CPW of one category. For an empty category the count is `0 - 1`,
      and in Python `x | -1` is -1 whatever x is. */
  function CpwValue(w: Weights): int
  {
    var acc := Pack(Reverse(PrefixSums(w)));
    if |w| == 0 then -1 else Or(acc, |w| - 1)
  }

  /** The CPW of one category, computed as the loop does. */
  method ComputeCpw(w: Weights) returns (cpw: int)
    ensures cpw == CpwValue(w)
  {
    var cpwList := Reverse(PrefixSums(w));
    var acc: nat := 0;
    var k := 0;
    while k < |cpwList|
      invariant 0 <= k <= |cpwList|
      invariant acc == Pack(cpwList[..k])
    {
      assert cpwList[..k + 1][..k] == cpwList[..k];
      acc := Or(acc, cpwList[k]);
      ShlByte(acc);
      acc := Shl(acc, 8);
      k := k + 1;
    }
    assert cpwList[..k] == cpwList;
    if |w| == 0 {
      cpw := -1;
    } else {
      cpw := Or(acc, |w| - 1);
    }
  }

  /** One hex-rendered CPW per category, in category order; each depends only
      on its own category's weights. */
  method GenerateCpws(traitWeightings: TraitWeightings) returns (cpws: seq<string>)
    ensures |cpws| == |traitWeightings|
    ensures forall i :: 0 <= i < |cpws| ==> cpws[i] == Hex(CpwValue(traitWeightings[i].1))
  {
    cpws := [];
    var i := 0;
    while i < |traitWeightings|
      invariant 0 <= i <= |traitWeightings|
      invariant |cpws| == i
      invariant forall j :: 0 <= j < i ==> cpws[j] == Hex(CpwValue(traitWeightings[j].1))
    {
      var cpw := ComputeCpw(traitWeightings[i].1);
      cpws := cpws + [Hex(cpw)];
      i := i + 1;
    }
  }
}
