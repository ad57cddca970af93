/** How much a block may create, how its size reduces that, and how an amount is cut into outputs. */
module Currencies {
  import opened ChainTypes
  import opened Numerals

  const MONEY_SUPPLY := 0xFFFF_FFFF_FFFF_FFFF
  const EMISSION_DIVISOR := 0x1_0000 // a shift by the emission speed factor, 16
  const DIFFICULTY_SCATTER_V2 := 32

  // ---- what the header check says about the size of a block ----

  function VersionAt(h: Height): nat {
    if h <= 1 then 1 else if h <= 2 then 2 else if h <= 7080 then 3 else 4
  }

  /** The least size that counts as the median. */
  function FullRewardZone(version: nat): nat {
    if version >= 3 then 100000 else if version == 2 then 20000 else 10000
  }

  /** 20 KB, and 100 KB more a year of blocks, in 64 bits. */
  function MaxBlockSize(h: Height): nat {
    20480 + h * 102400 / 525600
  }

  predicate PassesSizeCheck(h: Height, median: nat, size: nat) {
    median >= FullRewardZone(VersionAt(h)) && size <= MaxBlockSize(h)
  }

  /** The heights at which the header check implies that a block is at most twice the median, as the penalty asserts. */
  lemma {:induction false} SizeCheckBoundsSize(h: Height)
    ensures (forall median: nat, size: nat | PassesSizeCheck(h, median, size) :: size <= 2 * median) <==>
            2 <= h <= 921447
  {
    if 2 <= h <= 921447 {
      QuotientMonotone(h * 102400, 921447 * 102400, 525600);
      assert h == 2 ==> MaxBlockSize(h) == 20480;
    } else {
      var median, size := FullRewardZone(VersionAt(h)), MaxBlockSize(h);
      if h > 921447 {
        QuotientMonotone(921448 * 102400, h * 102400, 525600);
      }
      assert PassesSizeCheck(h, median, size) && size > 2 * median;
    }
  }

  // ---- the penalty for large blocks ----

  /** What is left of an amount, as a fraction of the square of the median. */
  function Kept(median: nat, size: nat): int {
    size * (2 * median - size)
  }

  function Penalized(amount: Amount, median: nat, size: nat): nat
    requires size <= 2 * median
  {
    if size <= median then amount else amount * KeptNat(median, size) / (median * median)
  }

  function KeptNat(median: nat, size: nat): (k: nat)
    requires size <= 2 * median
    ensures k == Kept(median, size)
  {
    KeptIsNatural(median, size);
    size * (2 * median - size)
  }

  lemma {:induction false} KeptIsNatural(median: nat, size: nat)
    requires size <= 2 * median
    ensures Kept(median, size) >= 0
  {
  }

  /** The difference to the square of the median is the square of the excess. */
  lemma {:induction false} KeptAndExcess(median: nat, size: nat)
    ensures Kept(median, size) == median * median - (size - median) * (size - median)
  {
  }

  /** Two divisions, one after the other, each of 128 bits by 32. Above the median something is lost, so that the high
      word of the result is zero. */
  method GetPenalizedAmount(amount: Amount, median: nat, size: nat) returns (r: Amount)
    requires amount < UINT64_RANGE && size <= 2 * median && median < UINT32_RANGE && size < UINT32_RANGE
    ensures r == Penalized(amount, median, size) && r <= amount
    ensures amount > 0 && size > median ==> r < amount
  {
    if amount == 0 {
      NothingLeft(median, size);
      return 0;
    }
    if size <= median {
      return amount;
    }
    hide Kept;
    var k := KeptNat(median, size);
    PenaltyFits(amount, median, size);
    var product := amount * k;
    var once := product / median;
    var twice := once / median;
    DivideTwice(product, median, median);
    return twice;
  }

  lemma {:induction false} NothingLeft(median: nat, size: nat)
    requires size <= 2 * median
    ensures Penalized(0, median, size) == 0
  {
    if size > median {
      assert 0 * KeptNat(median, size) == 0;
    }
  }

  /** No intermediate value leaves its width: the product of the sizes has 64 bits, its product with the amount 128, and
      the result is below the amount. */
  lemma {:induction false} PenaltyFits(amount: Amount, median: nat, size: nat)
    requires 0 < amount < UINT64_RANGE && median < size <= 2 * median && median < UINT32_RANGE
    ensures 0 <= Kept(median, size) < UINT64_RANGE
    ensures amount * Kept(median, size) < UINT64_RANGE * UINT64_RANGE
    ensures Penalized(amount, median, size) < amount
  {
    hide Kept;
    var k := KeptNat(median, size);
    KeptIsSmall(median, size);
    ProductFits(amount, k);
    PenaltyIsReal(amount, k, median * median);
  }

  lemma {:induction false} KeptIsSmall(median: nat, size: nat)
    requires median < size <= 2 * median && median < UINT32_RANGE
    ensures Kept(median, size) < median * median < UINT64_RANGE
  {
    KeptAndExcess(median, size);
    assert (size - median) * (size - median) >= 1;
    ProductFits2(median, UINT32_RANGE);
  }

  lemma {:induction false} ProductFits2(m: nat, b: nat)
    requires m < b
    ensures m * m < b * b
  {
    ProductNotLess(b, m, m);
    ProductNotLess(b, m + 1, b);
  }

  lemma {:induction false} ProductFits(a: nat, k: nat)
    requires a < UINT64_RANGE && k < UINT64_RANGE
    ensures a * k < UINT64_RANGE * UINT64_RANGE
  {
    ProductNotLess(UINT64_RANGE, a, k);
  }

  lemma {:induction false} DivideTwice(x: nat, a: nat, b: nat)
    requires a >= 1 && b >= 1
    ensures x / a / b == x / (a * b)
  {
    var y := x / a;
    var q, s, r := y / b, y % b, x % a;
    TwoSteps(x, y, q, s, r, a, b);
    var square, t := a * b, s * a + r;
    assert square >= 1 by { ProductNotLess(a, 1, b); }
    DivideBack(q, square, t);
  }

  lemma {:induction false} TwoSteps(x: nat, y: nat, q: nat, s: nat, r: nat, a: nat, b: nat)
    requires x == y * a + r && y == q * b + s && s < b && r < a
    ensures x == q * (a * b) + (s * a + r) && s * a + r < a * b
  {
    Regroup(q, b, s, a, r);
    Remainder(s, b, a, r);
  }

  lemma {:induction false} Regroup(q: nat, b: nat, s: nat, a: nat, r: nat)
    ensures (q * b + s) * a + r == q * (a * b) + (s * a + r)
  {
  }

  lemma {:induction false} Remainder(s: nat, b: nat, a: nat, r: nat)
    requires s < b && r < a
    ensures s * a + r < a * b
  {
    OneMoreDigit(s, b, a, r);
  }

  lemma {:induction false} PenaltyIsReal(amount: nat, k: nat, square: nat)
    requires amount >= 1 && k < square
    ensures amount * k / square < amount
  {
    ProductNotLess(square, k + 1, amount);
    QuotientBelow(amount * k, amount, square);
  }

  /** A larger block never keeps more. */
  lemma {:induction false} PenaltyGrowsWithSize(amount: Amount, median: nat, size: nat, larger: nat)
    requires size <= larger <= 2 * median
    ensures Penalized(amount, median, larger) <= Penalized(amount, median, size) <= amount
  {
    if median < larger {
      PenalizedAtMost(amount, median, larger);
      if median < size {
        PenalizedAtMost(amount, median, size);
        KeptShrinks(median, size, larger);
        ProductNotLess(KeptNat(median, size), KeptNat(median, larger), amount);
        QuotientMonotone(amount * KeptNat(median, larger), amount * KeptNat(median, size), median * median);
      }
    }
  }

  lemma {:induction false} KeptShrinks(median: nat, size: nat, larger: nat)
    requires median < size <= larger <= 2 * median
    ensures Kept(median, larger) <= Kept(median, size)
  {
    KeptAndExcess(median, size);
    KeptAndExcess(median, larger);
    ProductNotLess(larger - median, size - median, larger - median);
    ProductNotLess(larger - median, size - median, size - median);
  }

  lemma {:induction false} PenalizedAtMost(amount: Amount, median: nat, size: nat)
    requires median < size <= 2 * median
    ensures Penalized(amount, median, size) <= amount
  {
    KeptAndExcess(median, size);
    assert (size - median) * (size - median) >= 1;
    if amount > 0 {
      PenaltyIsReal(amount, KeptNat(median, size), median * median);
    } else {
      NothingLeft(median, size);
    }
  }

  lemma {:induction false} QuotientMonotone(x: nat, y: nat, d: nat)
    requires x <= y && d >= 1
    ensures x / d <= y / d
  {
    if x / d > y / d {
      ProductNotLess(x / d, y / d + 1, d);
    }
  }

  // ---- the reward ----

  function BaseReward(version: nat, generated: nat): (r: nat)
    requires generated <= MONEY_SUPPLY
    ensures r <= MONEY_SUPPLY - generated
  {
    var r := (MONEY_SUPPLY - generated) / EMISSION_DIVISOR;
    if version >= 4 && r >= DIFFICULTY_SCATTER_V2 then r / DIFFICULTY_SCATTER_V2 else r
  }

  /** What the block pays, and how much more there is afterwards, in 64 bits. */
  datatype Reward = Reward(reward: nat, emission: nat)

  method GetBlockReward(version: nat, median: nat, size: nat, generated: nat, fee: Amount) returns (r: Reward)
    requires generated <= MONEY_SUPPLY && fee < UINT64_RANGE
    requires size <= 2 * median && median < UINT32_RANGE && size < UINT32_RANGE
    ensures r == RewardOf(version, median, size, generated, fee)
  {
    var base := BaseReward(version, generated);
    var penalizedBase := GetPenalizedAmount(base, median, size);
    var penalizedFee := fee;
    if version >= 2 {
      penalizedFee := GetPenalizedAmount(fee, median, size);
    }
    return Reward((penalizedBase + penalizedFee) % UINT64_RANGE, (penalizedBase - (fee - penalizedFee)) % UINT64_RANGE);
  }

  function RewardOf(version: nat, median: nat, size: nat, generated: nat, fee: Amount): Reward
    requires generated <= MONEY_SUPPLY && size <= 2 * median
  {
    var base := Penalized(BaseReward(version, generated), median, size);
    var kept := if version >= 2 then Penalized(fee, median, size) else fee;
    Reward((base + kept) % UINT64_RANGE, (base - (fee - kept)) % UINT64_RANGE)
  }

  /** What is created is what the reward exceeds the fees by. The supply is never exceeded; the counter does not wrap as
      long as the fees that are lost do not exceed what there is. */
  lemma {:induction false} EmissionIsExact(version: nat, median: nat, size: nat, generated: nat, fee: Amount)
    requires generated <= MONEY_SUPPLY && size <= 2 * median && fee < UINT64_RANGE
    ensures var r := RewardOf(version, median, size, generated, fee);
            var exact := Penalized(BaseReward(version, generated), median, size)
                         + (if version >= 2 then Penalized(fee, median, size) else fee);
            && generated + exact - fee <= MONEY_SUPPLY
            && (exact < UINT64_RANGE && generated + exact - fee >= 0 ==>
                  (generated + r.emission) % UINT64_RANGE == generated + r.reward - fee)
  {
    hide Penalized, BaseReward;
    PenaltyGrowsWithSize(BaseReward(version, generated), median, 0, size);
    PenaltyGrowsWithSize(fee, median, 0, size);
    var base := Penalized(BaseReward(version, generated), median, size);
    var kept := if version >= 2 then Penalized(fee, median, size) else fee;
    if base + kept < UINT64_RANGE && generated + base + kept - fee >= 0 {
      WrapsBack(generated, base - (fee - kept));
    }
  }

  /** Adding a difference in 64 bits is exact when the result fits, even if the difference is negative. */
  lemma {:induction false} WrapsBack(g: nat, x: int)
    requires 0 <= g + x < UINT64_RANGE
    ensures (g + x % UINT64_RANGE) % UINT64_RANGE == g + x
  {
  }

  // ---- cutting an amount into outputs ----

  function SumOf(amounts: seq<Amount>): nat {
    if amounts == [] then 0 else SumOf(amounts[..|amounts| - 1]) + amounts[|amounts| - 1]
  }

  lemma {:induction false} SumAppend(amounts: seq<Amount>, a: Amount)
    ensures SumOf(amounts + [a]) == SumOf(amounts) + a
  {
    assert (amounts + [a])[..|amounts|] == amounts;
  }

  function Chunk(figure: nat, zeros: nat): nat {
    figure * Pow(10, zeros)
  }

  /** A leading figure and zeros. */
  ghost predicate IsChunk(a: Amount) {
    exists figure: nat, zeros: nat :: 1 <= figure <= 9 && a == Chunk(figure, zeros)
  }

  /** No part is zero, and all but the first k, which are the dust, are chunks. */
  ghost predicate PartsOk(parts: seq<Amount>, k: nat) {
    && k <= 2 && k <= |parts|
    && (forall i | 0 <= i < |parts| :: parts[i] > 0)
    && (forall i | k <= i < |parts| :: IsChunk(parts[i]))
  }

  lemma {:induction false} ChunkIsPart(parts: seq<Amount>, k: nat, figure: nat, zeros: nat)
    requires PartsOk(parts, k) && 1 <= figure <= 9
    ensures PartsOk(parts + [Chunk(figure, zeros)], k)
    ensures SumOf(parts + [Chunk(figure, zeros)]) == SumOf(parts) + Chunk(figure, zeros)
  {
    assert IsChunk(Chunk(figure, zeros));
    assert Chunk(figure, zeros) > 0;
    SumAppend(parts, Chunk(figure, zeros));
  }

  /** The dust as one or two parts. Nothing has been put out before it. */
  method AddDust(parts: seq<Amount>, dust: Amount) returns (r: seq<Amount>)
    requires dust > 0 && parts == []
    ensures r != [] && PartsOk(r, |r|) && SumOf(r) == dust
  {
    var low := dust % 1000;
    var high := dust - low;
    r := parts;
    if low != 0 {
      SumAppend(r, low);
      r := r + [low];
    }
    if high != 0 {
      SumAppend(r, high);
      r := r + [high];
    }
  }

  /** The parts of an amount: none is zero, together they are the amount, and all but the dust are chunks. */
  method DecomposeAmount(amount: Amount, threshold: Amount) returns (parts: seq<Amount>, ghost k: nat)
    ensures PartsOk(parts, k) && SumOf(parts) == amount && SumOf(parts[..k]) <= threshold
  {
    hide SumOf, IsChunk, Pow, PartsOk, Chunk;
    parts, k := [], 0;
    Nothing();
    var left: nat, dust: nat, order: nat := amount, 0, 1;
    var handled := false;
    ghost var n, rest := 0, amount;
    while left != 0
      invariant n >= 0 && order == Pow(10, n) && order >= 1 && rest == left * order
      invariant amount == rest + SumOf(parts) + (if handled then 0 else dust)
      invariant PartsOk(parts, k) && k <= |parts| && SumOf(parts[..k]) <= dust <= threshold
      invariant handled || parts != [] ==> dust + order > threshold
      invariant !handled ==> k == 0 && (parts == [] || dust == 0)
    {
      ghost var before := order;
      var figure := left % 10;
      var chunk := figure * order;
      Steps(left, order, figure, n);
      left, order := left / 10, order * 10;
      rest := rest - chunk;
      n := n + 1;
      if dust + chunk <= threshold {
        dust := dust + chunk;
      } else {
        if !handled && dust != 0 {
          parts := AddDust(parts, dust);
          k := |parts|;
          assert parts[..k] == parts;
          handled := true;
        }
        if chunk != 0 {
          ChunkIsPart(parts, k, figure, n - 1);
          assert (parts + [chunk])[..k] == parts[..k];
          parts := parts + [chunk];
        }
      }
    }
    if !handled && dust != 0 {
      parts := AddDust(parts, dust);
      k := |parts|;
      assert parts[..k] == parts;
    }
  }

  lemma {:induction false} Nothing()
    ensures SumOf([]) == 0 && PartsOk([], 0) && Pow(10, 0) == 1
  {
  }

  lemma {:induction false} Steps(left: nat, order: nat, figure: nat, n: nat)
    requires order == Pow(10, n) && order >= 1 && figure == left % 10
    ensures figure * order == Chunk(figure, n) <= 9 * order && Pow(10, n + 1) == order * 10
    ensures left * order == figure * order + left / 10 * (order * 10)
    ensures figure == 0 <==> figure * order == 0
    ensures figure != 0 ==> figure * order >= order
  {
    assert left == left % 10 + left / 10 * 10;
    ProductNotLess(9, figure, order);
    if figure >= 1 {
      ProductNotLess(figure, 1, order);
    }
  }

  /** The outputs of a coinbase: the parts of the reward, merged until there are few enough. They are never zero, and
      they always add up to the reward. */
  method CoinbaseAmounts(reward: Amount, maxOuts: nat) returns (outs: seq<Amount>)
    ensures SumOf(outs) == reward && (forall i | 0 <= i < |outs| :: outs[i] > 0)
    ensures |outs| <= if maxOuts == 0 then 1 else maxOuts
  {
    ghost var k;
    outs, k := DecomposeAmount(reward, DUST_THRESHOLD);
    hide IsChunk;
    var most := if maxOuts == 0 then 1 else maxOuts;
    while |outs| > most
      invariant SumOf(outs) == reward && forall i | 0 <= i < |outs| :: outs[i] > 0
    {
      var n := |outs| - 2;
      MergeKeepsSum(outs);
      outs := outs[..n] + [outs[n] + outs[n + 1]];
    }
  }

  lemma {:induction false} MergeKeepsSum(outs: seq<Amount>)
    requires |outs| >= 2
    ensures var n := |outs| - 2; SumOf(outs[..n] + [outs[n] + outs[n + 1]]) == SumOf(outs)
  {
    hide SumOf;
    var n := |outs| - 2;
    SumAppend(outs[..n], outs[n] + outs[n + 1]);
    SumAppend(outs[..n], outs[n]);
    SumAppend(outs[..n] + [outs[n]], outs[n + 1]);
    assert outs[..n] + [outs[n]] + [outs[n + 1]] == outs;
  }
}
