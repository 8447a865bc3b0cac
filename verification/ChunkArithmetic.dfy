/**
  The ROCm path of the sleep-mode memory allocator (repos/vllm/csrc/cumem_allocator.cpp).

  An allocation is one reserved address range, backed by several physical chunks that are mapped one
  after the other.  This module is about their sizes, in the 64-bit arithmetic of the source.
 */
module ChunkArithmetic {
  import opened Basics

  const U64 := 0x1_0000_0000_0000_0000

  /** 64-bit unsigned arithmetic; also the conversion of a signed size. */
  function Wrap(x: int): (r: nat)
    ensures r < U64
  {
    x % U64
  }

  lemma MulNat(a: nat, b: nat)
    ensures 0 <= a * b
    ensures a > 0 ==> b <= a * b
  {
    if a > 0 {
      MulStep(a - 1, b);
      assert (a - 1) * b >= 0;
    }
  }

  lemma MulStep(a: int, b: int)
    ensures (a + 1) * b == a * b + b
  {
  }

  /** ((size + granularity - 1) / granularity) * granularity in 64-bit unsigned arithmetic. */
  function AlignUp(size: nat, granularity: nat): (r: nat)
    requires granularity > 0
  {
    MulNat(Wrap(size + granularity - 1) / granularity, granularity);
    Wrap(size + granularity - 1) / granularity * granularity
  }

  lemma DivBounds(x: nat, g: nat)
    requires g > 0
    ensures x / g * g <= x < x / g * g + g
  {
    assert x == x / g * g + x % g;
  }

  lemma DivUnique(x: nat, g: nat, q: nat)
    requires g > 0 && q * g <= x < q * g + g
    ensures x / g == q && x % g == x - q * g
  {
    DivBounds(x, g);
    var p := x / g;
    assert x == p * g + x % g;
    MulDiff(p, q, g);
    if p < q {
      MulNat(q - p, g);
      assert false;
    }
    if q < p {
      MulNat(p - q, g);
      assert false;
    }
  }

  lemma MulDiff(p: int, q: int, g: int)
    ensures (p - q) * g == p * g - q * g && (q - p) * g == q * g - p * g
  {
  }

  lemma MultipleMod(q: nat, g: nat)
    requires g > 0
    ensures 0 <= q * g && (q * g) % g == 0
  {
    MulNat(q, g);
    DivUnique(q * g, g, q);
  }

  /**
    Rounding up covers the requested size exactly when the intermediate sum does not wrap around; it
    then gives the least multiple that does, and otherwise zero.
   */
  lemma AlignUpIff(size: nat, granularity: nat)
    requires size < U64 && 0 < granularity < U64
    ensures size <= AlignUp(size, granularity) <==> size + granularity - 1 < 0x1_0000_0000_0000_0000
    ensures AlignUp(size, granularity) % granularity == 0 && AlignUp(size, granularity) < U64
    ensures size + granularity - 1 < U64 ==> AlignUp(size, granularity) < size + granularity
    ensures AlignUp(size, granularity) == 0 <==> size == 0 || size + granularity - 1 >= U64
  {
    var sum := size + granularity - 1;
    assert Wrap(sum) == if sum < U64 then sum else sum - U64;
    var rounded := RoundDown(Wrap(sum), granularity);
  }

  /** Rounding down to a multiple. */
  lemma RoundDown(x: nat, g: nat) returns (r: nat)
    requires g > 0
    ensures r == x / g * g && r <= x < r + g && r % g == 0
    ensures x < g <==> r == 0
  {
    DivBounds(x, g);
    MultipleMod(x / g, g);
    r := x / g * g;
    if x < g {
      DivUnique(x, g, 0);
    }
  }

  const MB := 0x10_0000

  /** The chunk size in bytes, from the environment value in megabytes if there is one that parses. */
  function MemcreateChunkSize(parsed: Option<nat>): (bytes: nat)
    ensures 0 < bytes < U64 && bytes % MB == 0
    ensures parsed == Some(bytes / MB) <==> parsed.Some? && 0 < parsed.value <= (U64 - 1) / MB
    ensures parsed == Some(bytes / MB) || bytes / MB == 256
  {
    if parsed.None? || parsed.value == 0 || parsed.value > (U64 - 1) / MB then 256 * MB else parsed.value * MB
  }

  // ----- Splitting a size into chunks

  function Sum(s: seq<nat>): nat {
    if s == [] then 0 else Sum(s[..|s| - 1]) + s[|s| - 1]
  }

  /** Full chunks as long as they fit, then the remainder. */
  function Split(total: nat, chunk: nat): seq<nat>
    requires chunk > 0
  {
    if total == 0 then [] else if total <= chunk then [total] else [chunk] + Split(total - chunk, chunk)
  }

  lemma {:induction false} SumCons(x: nat, s: seq<nat>)
    ensures Sum([x] + s) == x + Sum(s)
  {
    if s != [] {
      SumCons(x, s[..|s| - 1]);
      assert ([x] + s)[..|s|] == [x] + s[..|s| - 1];
    }
  }

  /** The pieces add up to the total; all are positive and all but the last are full. */
  lemma {:induction false} SplitIsTiling(total: nat, chunk: nat)
    requires chunk > 0
    ensures Sum(Split(total, chunk)) == total
    ensures forall i :: 0 <= i < |Split(total, chunk)| ==> 0 < Split(total, chunk)[i] <= chunk
    ensures forall i :: 0 <= i < |Split(total, chunk)| - 1 ==> Split(total, chunk)[i] == chunk
    decreases total
  {
    if total > chunk {
      SplitIsTiling(total - chunk, chunk);
      SumCons(chunk, Split(total - chunk, chunk));
    } else if total > 0 {
      assert Split(total, chunk)[..0] == [];
    }
  }

  lemma {:induction false} SplitKeepsGranularity(total: nat, chunk: nat, g: nat)
    requires chunk > 0 && g > 0 && total % g == 0 && chunk % g == 0
    ensures forall i :: 0 <= i < |Split(total, chunk)| ==> Split(total, chunk)[i] % g == 0
    decreases total
  {
    if total > chunk {
      SubMod(total, chunk, g);
      SplitKeepsGranularity(total - chunk, chunk, g);
    }
  }

  lemma SubMod(a: nat, b: nat, g: nat)
    requires g > 0 && a >= b && a % g == 0 && b % g == 0
    ensures (a - b) % g == 0
  {
    var p, q := a / g, b / g;
    assert a == p * g && b == q * g;
    MulDiff(p, q, g);
    if p < q {
      MulNat(q - p, g);
      assert false;
    }
    MultipleMod(p - q, g);
  }

  /** The code's formula for the size of chunk i. */
  lemma {:induction false} SplitAt(total: nat, chunk: nat, i: nat)
    requires chunk > 0 && i < |Split(total, chunk)|
    ensures i * chunk < total
    ensures Split(total, chunk)[i] == if total - i * chunk < chunk then total - i * chunk else chunk
    decreases total
  {
    if i > 0 {
      SplitAt(total - chunk, chunk, i - 1);
      MulStep(i - 1, chunk);
      assert Split(total, chunk)[i] == Split(total - chunk, chunk)[i - 1];
    }
  }

  /** The code's formulas for the number of chunks and for the size of chunk i. */
  lemma {:induction false} SplitByIndex(total: nat, chunk: nat)
    requires chunk > 0
    ensures |Split(total, chunk)| == (total + chunk - 1) / chunk
    ensures forall i :: 0 <= i < |Split(total, chunk)| ==>
              && i * chunk < total
              && Split(total, chunk)[i] == if total - i * chunk < chunk then total - i * chunk else chunk
    decreases total
  {
    forall i | 0 <= i < |Split(total, chunk)|
      ensures i * chunk < total
      ensures Split(total, chunk)[i] == if total - i * chunk < chunk then total - i * chunk else chunk
    {
      SplitAt(total, chunk, i);
    }
    SplitCount(total, chunk);
  }

  lemma {:induction false} SplitCount(total: nat, chunk: nat)
    requires chunk > 0
    ensures |Split(total, chunk)| == (total + chunk - 1) / chunk
    decreases total
  {
    if total > chunk {
      SplitCount(total - chunk, chunk);
      CeilStep(total, chunk);
    } else if total > 0 {
      CeilOne(total, chunk);
    } else {
      CeilZero(chunk);
    }
  }

  /** The chunk sizes of an allocation, from the requested sizes; none if their number wraps around. */
  function ChunksFor(size: nat, granularity: nat, baseChunk: nat): seq<nat>
    requires granularity > 0 && AlignUp(baseChunk, granularity) > 0
  {
    ChunkSizes(AlignUp(size, granularity), AlignUp(baseChunk, granularity))
  }

  function ChunkSizes(total: nat, chunk: nat): seq<nat>
    requires chunk > 0
  {
    if total + chunk - 1 < U64 then Split(total, chunk) else []
  }

  /** The chunks add up to the size exactly when their number does not wrap around. */
  lemma ChunksCoverIff(total: nat, chunk: nat)
    requires total > 0 && chunk > 0
    ensures Sum(ChunkSizes(total, chunk)) == total <==> total + chunk - 1 < U64
    ensures total + chunk - 1 < U64 <==> ChunkSizes(total, chunk) != []
    ensures forall i :: 0 <= i < |ChunkSizes(total, chunk)| ==> ChunkSizes(total, chunk)[i] > 0
  {
    SplitIsTiling(total, chunk);
  }

  /**
    Without wrap-around the chunks tile the rounded-up size: positive multiples of the granularity,
    all but the last equal to the rounded-up chunk size.
   */
  lemma ChunksTile(size: nat, granularity: nat, baseChunk: nat)
    requires 0 < size && 0 < granularity && 0 < baseChunk
    requires size + granularity - 1 < U64 && baseChunk + granularity - 1 < U64
    requires AlignUp(size, granularity) + AlignUp(baseChunk, granularity) - 1 < U64
    ensures var total, chunk := AlignUp(size, granularity), AlignUp(baseChunk, granularity);
            && chunk > 0 && size <= total < size + granularity
            && var chunks := ChunksFor(size, granularity, baseChunk);
            && Sum(chunks) == total
            && (forall i :: 0 <= i < |chunks| ==> 0 < chunks[i] <= chunk && chunks[i] % granularity == 0)
            && (forall i :: 0 <= i < |chunks| - 1 ==> chunks[i] == chunk)
  {
    AlignUpIff(size, granularity);
    AlignUpIff(baseChunk, granularity);
    SplitIsTiling(AlignUp(size, granularity), AlignUp(baseChunk, granularity));
    SplitKeepsGranularity(AlignUp(size, granularity), AlignUp(baseChunk, granularity), granularity);
  }

  lemma CeilStep(total: nat, chunk: nat)
    requires 0 < chunk < total
    ensures (total + chunk - 1) / chunk == (total - chunk + chunk - 1) / chunk + 1
  {
    DivBounds(total - 1, chunk);
    DivUnique(total + chunk - 1, chunk, (total - 1) / chunk + 1);
  }

  lemma CeilOne(total: nat, chunk: nat)
    requires 0 < total <= chunk
    ensures (total + chunk - 1) / chunk == 1
  {
    DivUnique(total + chunk - 1, chunk, 1);
  }

  lemma CeilZero(chunk: nat)
    requires chunk > 0
    ensures (0 + chunk - 1) / chunk == 0
  {
    DivUnique(chunk - 1, chunk, 0);
  }
}
