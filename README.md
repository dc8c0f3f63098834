# CPW encoder, modelled and verified in Dafny

`generate_cpws` turns a mapping from trait category to an ordered list of
integer weights into one "compact packed weights" word (CPW) per category,
rendered with Python's `hex()`. For each category it takes the inclusive
running sums of the weights, reverses them, packs them into an accumulator
by OR-then-shift-left-8 (so, when every running sum fits in a byte, the
total ends up in the most significant byte lane and `w[0]` in the lane just
above the lowest byte), ORs the number of
weights minus one into the freed lowest byte, and appends the hex string to
the output list, in the mapping's iteration order.

Files:

- `bits.dfy` (module `Bits`): Python's `|` on non-negative integers of
  unbounded width (`Or`) and `<<` (`Shl`), with the lane-by-lane facts
  the packing relies on.
- `hex.dfy` (module `HexText`): Python's `hex()` (`Hex`): lowercase digits,
  no leading zeros, `0x` prefix, `-0x` for negatives, and a reader that
  inverts it.
- `encoder.dfy` (module `CpwEncoder`): the encoder. `PrefixSums`
  (`itertools.accumulate`), `Reverse` (`[::-1]`), `Pack` (the accumulator
  after the packing loop), `CpwValue` (the CPW of one category),
  `ComputeCpw` (the packing loop as a `while` loop, proved equal to
  `CpwValue`) and `GenerateCpws` (the outer loop that appends one hex string
  per category).
- `layout.dfy` (module `CpwLayout`): what a CPW holds. On the lossless
  domain (`Lossless`: 1 to 256 weights, every running sum below 256) it
  proves the closed form, the lane-by-lane layout, the bit-width bound, a
  reference decoder's round trip and injectivity; outside it, the count
  byte with up to 256 weights, the `-1` of an empty category and a family of
  lane collisions; and the worked values.

The encoder itself has no precondition: as in Python, it is defined for
every list of non-negative weights. An empty category yields `0 | -1 == -1`,
rendered `"-0x1"`. A running sum of 256 or more spills its high bits into the
lane above its own. That lane holds the running sum packed before it, or,
for the total, lies above the top lane. `OverflowCollision` gives a family of
lists that collide this way. The layout lemmas carry the lossless
precondition.

Two facts about the code bound what the lemmas can promise:
- The count lane holds `n - 1` only for `n <= 256`: a larger count ORs into
  the lanes above, so `CountByte` requires `1 <= n <= 256`.
- An empty mapping gives an empty list, in the code and in `GenerateCpws`.

## Model

| member | source | states |
|---|---|---|
| `CpwEncoder.GenerateCpws` | py_utils/generate_cpws.py:4-17 | Exactly one string per category, in category order. Entry i is `hex` of the CPW of category i's weights and of nothing else; the names are never read. |
| `CpwEncoder.ComputeCpw` | py_utils/generate_cpws.py:8-14 | The loop computes exactly `CpwValue(w)`. Invariant: after k reversed running sums the accumulator is `Pack` of those k values, each ORed in and shifted left by 8. |
| `CpwLayout.PrefixSumsAt` | py_utils/generate_cpws.py:8 | Entry i of `accumulate(w)` is `w[0] + ... + w[i]`; the last entry is the total. |
| `CpwLayout.ReverseAt` | py_utils/generate_cpws.py:8 | Entry k of `s[::-1]` is `s[len - 1 - k]`. |
| `CpwLayout.CpwListAt` | py_utils/generate_cpws.py:8 | Entry k of the list the loop walks is the running sum of the first `n - k` weights: the total first, `w[0]` last. |
| `CpwLayout.DeltasOfPrefixSums` | py_utils/generate_cpws.py:8 | Taking differences of consecutive running sums gives back the weights, so running sums lose nothing. |
| `CpwLayout.LosslessIffTotal` | py_utils/generate_cpws.py:8-12 | Every running sum is below 256 exactly when the total is, because weights are non-negative. |
| `CpwLayout.PackLowByteZero` | py_utils/generate_cpws.py:10-12 | After the packing loop the accumulator's lowest byte is zero. |
| `CpwLayout.PackReversed` | py_utils/generate_cpws.py:8-12 | With values below 256, packing the reversed list puts `p[i]` in lane i + 1 and leaves lane 0 zero: `Pack(Reverse(p)) == LaneSum(p) * 256`. |
| `CpwLayout.CountByte` | py_utils/generate_cpws.py:10-14 | With 1 to 256 weights the CPW is non-negative and its lowest byte is `n - 1`, even when running sums overflow. |
| `CpwLayout.EmptyCategory` | py_utils/generate_cpws.py:14-15 | An empty category gives -1, rendered `"-0x1"`. |
| `CpwLayout.CpwIsPackPlusCount` | py_utils/generate_cpws.py:14 | With 1 to 256 weights the final OR adds `n - 1` to the packed accumulator. |
| `CpwLayout.ClosedForm` | py_utils/generate_cpws.py:8-14 | On the lossless domain the CPW is `LaneSum(prefix) * 256 + (n - 1)`, with `prefix[i]` in lane i + 1. |
| `CpwLayout.ClosedFormPowers` | py_utils/generate_cpws.py:8-14 | On the lossless domain the CPW is the sum over i of `prefix[i] * 256^(i+1)`, plus `n - 1`. |
| `CpwLayout.LaneSumIsPowerSum` | py_utils/generate_cpws.py:9-12 | The Horner form built by shift-and-add equals the explicit sum of `p[i] * 256^(i+1)`. |
| `CpwLayout.CpwBound` | py_utils/generate_cpws.py:9-14 | On the lossless domain `0 <= CPW < 256^(n+1)`: it fits in `8 * (n + 1)` bits. |
| `CpwLayout.LaneLayout` | py_utils/generate_cpws.py:8-14 | On the lossless domain lane 0 is `n - 1` and lane i + 1 is `prefix[i]`. |
| `CpwLayout.FirstAndTopLanes` | py_utils/generate_cpws.py:8-14 | On the lossless domain lane 1, just above the count, is `w[0]`, and lane n is `sum(w)`. |
| `CpwLayout.LanesAboveTopZero` | py_utils/generate_cpws.py:9-14 | On the lossless domain every lane above lane n is zero: the word has exactly n lanes above the count. |
| `CpwLayout.DecodeEncode` | py_utils/generate_cpws.py:8-14 | On the lossless domain the reference decoder (count from lane 0, running sums from lanes 1..n, then differences) returns exactly the weights. |
| `CpwLayout.EncodeInjective` | py_utils/generate_cpws.py:8-14 | On the lossless domain two weight lists with the same CPW are equal, of any lengths. So a reordering that changes a running sum changes the CPW. |
| `CpwLayout.OverflowCollision` | py_utils/generate_cpws.py:10-12 | Outside the lossless domain lanes bleed: for every k in 1..255 the different lists `[256k, k]` and `[0, 257k]` have the same CPW. |
| `CpwLayout.WorkedValueOne` | py_utils/generate_cpws.py:8-14 | `[1]` gives `0x100`. |
| `CpwLayout.WorkedValueTwo` | py_utils/generate_cpws.py:8-14 | `[1, 2]` gives `0x30101`. |
| `CpwLayout.WorkedValueThree` | py_utils/generate_cpws.py:8-14 | `[2, 3, 5]` gives `0xa050202`. |
| `CpwLayout.TwoCategoriesExample` | py_utils/generate_cpws.py:5-17 | `{"background": [1], "fur": [1, 2]}` gives `["0x100", "0x30101"]`, in that order. |
| `Bits.OrZero` | py_utils/generate_cpws.py:11 | Zero is the identity of OR on both sides, so the first OR into the zero accumulator just loads the value. |
| `Bits.OrSelf` | py_utils/generate_cpws.py:11 | OR of a value with itself is that value. |
| `Bits.OrStep` | py_utils/generate_cpws.py:11 | OR splits into the lowest bit and the bits above it. |
| `Bits.OrLanes` | py_utils/generate_cpws.py:11 | OR works lane by lane: the low k bits and the bits above them are combined separately. |
| `Bits.ByteLanes` | py_utils/generate_cpws.py:11 | The byte instance: ORing `a*256 + c` with `b*256 + d`, for bytes c and d, gives `Or(a, b)*256 + Or(c, d)`. |
| `Bits.OrIntoZeroByte` | py_utils/generate_cpws.py:11-14 | ORing a value below 256 into a word whose lowest byte is zero is addition. |
| `Bits.ShlByte` | py_utils/generate_cpws.py:12 | `x << 8 == 256 * x`. |
| `HexText.HexDigits` | py_utils/generate_cpws.py:15 | The digits are lowercase hex digits. There is at least one, and no leading zero unless the value is 0. |
| `HexText.HexRoundTrip` | py_utils/generate_cpws.py:15 | `hex()` loses nothing: every integer reads back from its rendering. |
| `HexText.HexInjective` | py_utils/generate_cpws.py:15 | Different CPWs render as different strings. |
| `HexText.HexOfOneWeight` | py_utils/generate_cpws.py:15 | `hex(0x100) == "0x100"`. |
| `HexText.HexOfTwoWeights` | py_utils/generate_cpws.py:15 | `hex(0x30101) == "0x30101"`. |
| `HexText.HexOfThreeWeights` | py_utils/generate_cpws.py:15 | `hex(0xa050202) == "0xa050202"`. |

## Left out

- The `__main__` block (py_utils/generate_cpws.py:19-24) is left out. It reads a JSON file from disk and prints the result, which is I/O.
- Category names and the dictionary itself are not modelled. The input is a sequence of (name, weights) pairs in the dictionary's insertion order, because the code reads only `.values()`. Key uniqueness is not modelled either, since nothing depends on it.
- Weights are natural numbers. Negative Python integers, and the two's-complement OR behaviour they would bring, are not modelled.
- `Decode` is a reference decoder used only to state injectivity. The repository has no decoder.
- Python's OR with a negative operand is modelled only where the code can produce one: the `0 | -1` of an empty category.
