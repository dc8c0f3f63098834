/** What a CPW holds, lane by lane, when the packing is lossless: every running
    sum fits in one byte and the count fits in the lowest byte. */
module CpwLayout {
  import opened Bits
  import opened HexText
  import opened CpwEncoder

  /** 256 to the power k: the weight of byte lane k. This is `Pow2(8 * k)`; it
      steps one byte at a time because every lemma here works lane by lane. */
  function Pow256(k: nat): (r: nat)
    ensures r >= 1
  {
    if k == 0 then 1 else 256 * Pow256(k - 1)
  }

  /** Every value fits in one byte. */
  predicate AllBytes(p: seq<nat>)
  {
    forall i :: 0 <= i < |p| ==> p[i] < 256
  }

  /** The domain on which the encoding is lossless: between 1 and 256 weights,
      and every running sum below 256. */
  predicate Lossless(w: Weights)
  {
    1 <= |w| <= 256 && AllBytes(PrefixSums(w))
  }

  /** `p[0] + p[1] * 256 + p[2] * 256^2 + ...`, in Horner form. */
  function LaneSum(p: seq<nat>): nat
  {
    if p == [] then 0 else p[0] + 256 * LaneSum(p[1..])
  }

  /** `p[0] * 256^1 + p[1] * 256^2 + ...`: each value weighted by the lane one
      above its index. */
  function PowerSum(p: seq<nat>): nat
  {
    if p == [] then 0 else PowerSum(p[..|p| - 1]) + p[|p| - 1] * Pow256(|p|)
  }

  /** Byte lane i of x: `(x >> (8 * i)) & 0xff`. */
  function Lane(x: nat, i: nat): (b: nat)
    ensures b < 256
  {
    if i == 0 then x % 256 else Lane(x / 256, i - 1)
  }

  /** The k lowest byte lanes of x, least significant first. */
  function LowLanes(x: nat, k: nat): (s: seq<nat>)
    ensures |s| == k
  {
    if k == 0 then [] else [x % 256] + LowLanes(x / 256, k - 1)
  }

  /** Differences of consecutive values: the inverse of running sums. */
  function Deltas(p: seq<nat>): (d: seq<int>)
    ensures |d| == |p|
  {
    seq(|p|, i requires 0 <= i < |p| => if i == 0 then p[0] as int else p[i] as int - p[i - 1] as int)
  }

  /** A reference decoder: the count from the lowest byte, then that many
      running sums from the lanes above it, then their differences. */
  function Decode(cpw: nat): seq<int>
  {
    Deltas(LowLanes(cpw / 256, cpw % 256 + 1))
  }

  // ----- running sums and reversal -----------------------------------------

  lemma {:induction false} SumSnoc(w: Weights, x: nat)
    ensures Sum(w + [x]) == Sum(w) + x
  {
    if w != [] {
      assert (w + [x])[1..] == w[1..] + [x];
      SumSnoc(w[1..], x);
    }
  }

  lemma {:induction false} AccumulateAt(w: Weights, total: nat, i: nat)
    requires i < |w|
    ensures Accumulate(w, total)[i] == total + Sum(w[..i + 1])
  {
    assert w[..i + 1][1..] == w[1..][..i];
    if i > 0 {
      AccumulateAt(w[1..], total + w[0], i - 1);
    }
  }

  /** Entry i of `accumulate(w)` is `w[0] + ... + w[i]`; the last is the total. */
  lemma PrefixSumsAt(w: Weights, i: nat)
    requires i < |w|
    ensures PrefixSums(w)[i] == Sum(w[..i + 1])
    ensures i == |w| - 1 ==> PrefixSums(w)[i] == Sum(w)
  {
    AccumulateAt(w, 0, i);
    assert i == |w| - 1 ==> w[..i + 1] == w;
  }

  lemma {:induction false} ReverseAt<T>(s: seq<T>, k: nat)
    requires k < |s|
    ensures Reverse(s)[k] == s[|s| - 1 - k]
  {
    if k < |s| - 1 {
      ReverseAt(s[1..], k);
    }
  }

  /** Entry k of the list the loop walks through is the running sum of the
      first `|w| - k` weights: the total first, `w[0]` last. */
  lemma CpwListAt(w: Weights, k: nat)
    requires k < |w|
    ensures Reverse(PrefixSums(w))[k] == Sum(w[..|w| - k])
  {
    ReverseAt(PrefixSums(w), k);
    PrefixSumsAt(w, |w| - 1 - k);
  }

  lemma {:induction false} SumOfPrefixBounded(w: Weights, j: nat)
    requires j <= |w|
    ensures Sum(w[..j]) <= Sum(w)
  {
    if j > 0 {
      assert w[..j][1..] == w[1..][..j - 1];
      SumOfPrefixBounded(w[1..], j - 1);
    }
  }

  /** Since weights are non-negative the total is the largest running sum, so
      the lossless domain is exactly: 1 to 256 weights whose total is below 256. */
  lemma LosslessIffTotal(w: Weights)
    ensures Lossless(w) <==> 1 <= |w| <= 256 && Sum(w) < 256
  {
    if 1 <= |w| {
      PrefixSumsAt(w, |w| - 1);
      forall i | 0 <= i < |w|
        ensures PrefixSums(w)[i] <= Sum(w)
      {
        PrefixSumsAt(w, i);
        SumOfPrefixBounded(w, i + 1);
      }
    }
  }

  /** Running sums are undone by differences. */
  lemma DeltasOfPrefixSums(w: Weights)
    ensures Deltas(PrefixSums(w)) == w
  {
    var p := PrefixSums(w);
    forall i | 0 <= i < |w|
      ensures Deltas(p)[i] == w[i]
    {
      PrefixSumsAt(w, i);
      if i == 0 {
        assert w[..1] == [w[0]] + [];
        assert w[..1][1..] == [];
      } else {
        PrefixSumsAt(w, i - 1);
        assert w[..i + 1] == w[..i] + [w[i]];
        SumSnoc(w[..i], w[i]);
      }
    }
  }

  // ----- the packing loop ----------------------------------------------------

  /** After the packing loop the lowest byte of the accumulator is zero. */
  lemma PackLowByteZero(lanes: seq<nat>)
    ensures Pack(lanes) % 256 == 0
  {
    if lanes != [] {
      var o := Or(Pack(lanes[..|lanes| - 1]), lanes[|lanes| - 1]);
      assert Pack(lanes) == o * 256;
    }
  }

  /** Packing the reversed list puts `p[0]` in lane 1, `p[1]` in lane 2, and
      so on, with lane 0 left empty. */
  lemma {:induction false} PackReversed(p: seq<nat>)
    requires AllBytes(p)
    ensures Pack(Reverse(p)) == LaneSum(p) * 256
  {
    if p != [] {
      var r := Reverse(p);
      assert r[..|r| - 1] == Reverse(p[1..]);
      assert r[|r| - 1] == p[0];
      PackReversed(p[1..]);
      OrIntoZeroByte(LaneSum(p[1..]) * 256, p[0]);
    }
  }

  lemma {:induction false} LaneSumSnoc(p: seq<nat>, x: nat)
    ensures LaneSum(p + [x]) == LaneSum(p) + x * Pow256(|p|)
  {
    if p != [] {
      assert (p + [x])[1..] == p[1..] + [x];
      LaneSumSnoc(p[1..], x);
      var k := |p| - 1;
      calc {
        LaneSum(p + [x]);
        p[0] + 256 * (LaneSum(p[1..]) + x * Pow256(k));
        p[0] + 256 * LaneSum(p[1..]) + 256 * (x * Pow256(k));
        { assert 256 * (x * Pow256(k)) == x * (256 * Pow256(k)); }
        LaneSum(p) + x * Pow256(|p|);
      }
    }
  }

  /** The Horner form shifted by one lane is the explicit weighted sum. */
  lemma {:induction false} LaneSumIsPowerSum(p: seq<nat>)
    ensures LaneSum(p) * 256 == PowerSum(p)
  {
    if p != [] {
      var q, x := p[..|p| - 1], p[|p| - 1];
      assert p == q + [x];
      LaneSumIsPowerSum(q);
      LaneSumSnoc(q, x);
      calc {
        LaneSum(p) * 256;
        (LaneSum(q) + x * Pow256(|q|)) * 256;
        LaneSum(q) * 256 + (x * Pow256(|q|)) * 256;
        { assert (x * Pow256(|q|)) * 256 == x * (256 * Pow256(|q|)); }
        PowerSum(q) + x * Pow256(|p|);
      }
    }
  }

  /** Values below 256 packed into k lanes stay below 256^k. */
  lemma {:induction false} LaneSumBound(p: seq<nat>)
    requires AllBytes(p)
    ensures LaneSum(p) < Pow256(|p|)
  {
    if p != [] {
      LaneSumBound(p[1..]);
      var k := |p| - 1;
      assert LaneSum(p[1..]) + 1 <= Pow256(k);
      assert 256 * (LaneSum(p[1..]) + 1) <= 256 * Pow256(k);
    }
  }

  /** Reading the lanes back gives the packed values. */
  lemma {:induction false} LowLanesOfLaneSum(p: seq<nat>)
    requires AllBytes(p)
    ensures LowLanes(LaneSum(p), |p|) == p
  {
    if p != [] {
      var x := LaneSum(p);
      assert x % 256 == p[0] && x / 256 == LaneSum(p[1..]);
      LowLanesOfLaneSum(p[1..]);
    }
  }

  lemma {:induction false} LowLanesAt(x: nat, k: nat, i: nat)
    requires i < k
    ensures LowLanes(x, k)[i] == Lane(x, i)
  {
    if i > 0 {
      LowLanesAt(x / 256, k - 1, i - 1);
    }
  }

  /** Every lane at or above lane i of a number below 256^i is zero. */
  lemma {:induction false} LaneAboveTop(x: nat, i: nat, j: nat)
    requires x < Pow256(i) && i <= j
    ensures Lane(x, j) == 0
  {
    if j == 0 {
    } else if i == 0 {
      assert x == 0;
      LaneAboveTop(0, 0, j - 1);
    } else {
      assert x / 256 < Pow256(i - 1);
      LaneAboveTop(x / 256, i - 1, j - 1);
    }
  }

  // ----- the CPW -------------------------------------------------------------

  /** With 1 to 256 weights the lowest byte is the count minus one, whether or
      not the running sums overflow their lanes. */
  lemma CountByte(w: Weights)
    requires 1 <= |w| <= 256
    ensures CpwValue(w) >= 0 && CpwValue(w) % 256 == |w| - 1
  {
    CpwIsPackPlusCount(w);
    PackLowByteZero(Reverse(PrefixSums(w)));
  }

  /** With 1 to 256 weights the final OR adds the count minus one to the
      packed accumulator. */
  lemma CpwIsPackPlusCount(w: Weights)
    requires 1 <= |w| <= 256
    ensures CpwValue(w) == Pack(Reverse(PrefixSums(w))) + (|w| - 1)
  {
    var acc := Pack(Reverse(PrefixSums(w)));
    assert CpwValue(w) == Or(acc, |w| - 1);
    PackLowByteZero(Reverse(PrefixSums(w)));
    OrIntoZeroByte(acc, |w| - 1);
  }

  /** An empty category gives `0 | -1`, rendered "-0x1". */
  lemma EmptyCategory()
    ensures CpwValue([]) == -1 && Hex(CpwValue([])) == "-0x1"
  {
  }

  /** The closed form: running sum i sits in lane i + 1, the count in lane 0. */
  lemma ClosedForm(w: Weights)
    requires Lossless(w)
    ensures CpwValue(w) == LaneSum(PrefixSums(w)) * 256 + (|w| - 1)
  {
    CpwIsPackPlusCount(w);
    PackReversed(PrefixSums(w));
  }

  /** The closed form written out: the sum over i of `prefix[i] * 256^(i+1)`,
      plus the count minus one. */
  lemma ClosedFormPowers(w: Weights)
    requires Lossless(w)
    ensures CpwValue(w) == PowerSum(PrefixSums(w)) + (|w| - 1)
  {
    ClosedForm(w);
    LaneSumIsPowerSum(PrefixSums(w));
  }

  /** A CPW of n weights fits in 8 * (n + 1) bits. */
  lemma CpwBound(w: Weights)
    requires Lossless(w)
    ensures 0 <= CpwValue(w) < Pow256(|w| + 1)
  {
    ClosedForm(w);
    var p := PrefixSums(w);
    LaneSumBound(p);
    assert LaneSum(p) * 256 + 255 < Pow256(|p|) * 256 by {
      assert LaneSum(p) + 1 <= Pow256(|p|);
    }
  }

  /** The lanes of a word made of packed bytes above a low byte. */
  lemma LanesOfWord(x: nat, p: seq<nat>, low: nat)
    requires AllBytes(p) && low < 256
    requires x == LaneSum(p) * 256 + low
    ensures Lane(x, 0) == low
    ensures forall i :: 0 <= i < |p| ==> Lane(x, i + 1) == p[i]
  {
    assert x % 256 == low && x / 256 == LaneSum(p);
    LowLanesOfLaneSum(p);
    forall i | 0 <= i < |p|
      ensures Lane(x, i + 1) == p[i]
    {
      LowLanesAt(LaneSum(p), |p|, i);
    }
  }

  /** Lane by lane: the count minus one in lane 0 and running sum i in lane
      i + 1. */
  lemma LaneLayout(w: Weights)
    requires Lossless(w)
    ensures CpwValue(w) >= 0
    ensures Lane(CpwValue(w), 0) == |w| - 1
    ensures forall i :: 0 <= i < |w| ==> Lane(CpwValue(w), i + 1) == PrefixSums(w)[i]
  {
    ClosedForm(w);
    LanesOfWord(CpwValue(w), PrefixSums(w), |w| - 1);
  }

  /** `w[0]` sits just above the count and the total in the top lane. */
  lemma FirstAndTopLanes(w: Weights)
    requires Lossless(w)
    ensures CpwValue(w) >= 0
    ensures Lane(CpwValue(w), 1) == w[0]
    ensures Lane(CpwValue(w), |w|) == Sum(w)
  {
    var p := PrefixSums(w);
    var n := |w|;
    LaneLayout(w);
    var cpw: nat := CpwValue(w);
    assert Lane(cpw, 0 + 1) == p[0];
    assert Lane(cpw, (n - 1) + 1) == p[n - 1];
    PrefixSumsAt(w, 0);
    assert Sum(w[..1]) == w[0] by {
      assert w[..1][1..] == [];
    }
    PrefixSumsAt(w, n - 1);
  }

  /** Nothing is stored above lane n. */
  lemma LanesAboveTopZero(w: Weights)
    requires Lossless(w)
    ensures CpwValue(w) >= 0
    ensures forall j :: j > |w| ==> Lane(CpwValue(w), j) == 0
  {
    CpwBound(w);
    forall j | j > |w|
      ensures Lane(CpwValue(w), j) == 0
    {
      LaneAboveTop(CpwValue(w), |w| + 1, j);
    }
  }

  /** The reference decoder inverts the encoder on the lossless domain. */
  lemma DecodeEncode(w: Weights)
    requires Lossless(w)
    ensures CpwValue(w) >= 0 && Decode(CpwValue(w)) == w
  {
    var p := PrefixSums(w);
    ClosedForm(w);
    var cpw: nat := CpwValue(w);
    assert cpw % 256 == |w| - 1 && cpw / 256 == LaneSum(p);
    LowLanesOfLaneSum(p);
    DeltasOfPrefixSums(w);
  }

  /** On the lossless domain distinct weight lists, of any lengths, have
      distinct CPWs; in particular a reordering that changes a running sum
      changes the CPW. */
  lemma EncodeInjective(w1: Weights, w2: Weights)
    requires Lossless(w1) && Lossless(w2)
    requires CpwValue(w1) == CpwValue(w2)
    ensures w1 == w2
  {
    DecodeEncode(w1);
    DecodeEncode(w2);
  }

  lemma PrefixSumsPair(a: nat, b: nat)
    ensures PrefixSums([a, b]) == [a, a + b]
  {
    assert [a, b][1..] == [b] && [b][1..] == [];
    assert Accumulate([b], a) == [a + b] + Accumulate([], a + b);
  }

  /** Outside the lossless domain lanes bleed into each other: for every k in
      1..255 the different lists [256 * k, k] and [0, 257 * k] share a CPW,
      because ORing 256 * k into the lane holding 257 * k changes nothing. */
  lemma OverflowCollision(k: nat)
    requires 1 <= k < 256
    ensures [256 * k, k] != [0, 257 * k]
    ensures CpwValue([256 * k, k]) == CpwValue([0, 257 * k])
  {
    var top := 257 * k;
    assert [256 * k, k][0] != [0, 257 * k][0];
    PrefixSumsPair(256 * k, k);
    PrefixSumsPair(0, top);
    assert Reverse([256 * k, top]) == [top, 256 * k];
    assert Reverse([0, top]) == [top, 0];
    OrZero(top);
    assert Pack([top]) == top * 256;
    // the lane of 256 * k lies inside that of top
    OrZero(k);
    OrSelf(k);
    ByteLanes(k, 0, k, k);
    assert Or(top, k) == top;
    ByteLanes(top, k, 0, 0);
    assert Pack([top, 256 * k]) == top * 256 * 256;
    OrZero(top * 256);
    assert Pack([top, 0]) == top * 256 * 256;
    var w1, w2 := [256 * k, k], [0, top];
    assert Reverse(PrefixSums(w1)) == [top, 256 * k];
    assert Reverse(PrefixSums(w2)) == [top, 0];
    assert CpwValue(w1) == Or(top * 256 * 256, |w1| - 1);
    assert CpwValue(w2) == Or(top * 256 * 256, |w2| - 1);
  }

  /** Worked value: [1] gives 0x100. */
  lemma WorkedValueOne()
    ensures CpwValue([1]) == 0x100
  {
    assert PrefixSums([1]) == [1];
    assert Lossless([1]);
    ClosedForm([1]);
    assert LaneSum([1]) == 1;
  }

  /** Worked value: [1, 2] gives 0x30101. */
  lemma WorkedValueTwo()
    ensures CpwValue([1, 2]) == 0x30101
  {
    PrefixSumsPair(1, 2);
    assert Lossless([1, 2]);
    ClosedForm([1, 2]);
    assert LaneSum([1, 3]) == 0x301;
  }

  /** Worked value: [2, 3, 5] gives 0xa050202. */
  lemma WorkedValueThree()
    ensures CpwValue([2, 3, 5]) == 0xa050202
  {
    var w := [2, 3, 5];
    assert w[1..] == [3, 5] && w[1..][1..] == [5];
    assert PrefixSums(w) == [2, 5, 10];
    assert Lossless(w);
    ClosedForm(w);
    assert LaneSum([2, 5, 10]) == 0xa0502;
  }

  /** The two-category mapping {"background": [1], "fur": [1, 2]} gives
      ["0x100", "0x30101"], in that order. */
  method TwoCategoriesExample() returns (cpws: seq<string>)
    ensures cpws == ["0x100", "0x30101"]
  {
    cpws := GenerateCpws([("background", [1]), ("fur", [1, 2])]);
    WorkedValueOne();
    WorkedValueTwo();
    HexOfOneWeight();
    HexOfTwoWeights();
  }
}
