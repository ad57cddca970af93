/** Amounts along a chain: what transactions may claim, what a block may pay itself, and that nothing is created beside
    the emission. */
module Moneys {
  import opened ChainTypes
  import opened DeltaStates
  import Mempools
  import opened Replaying
  import opened Currencies

  type KeyCheck = PublicKey -> bool

  // ---- sums ----

  function OutSum(outputs: seq<Output>): nat {
    if outputs == [] then 0 else OutSum(outputs[..|outputs| - 1]) + outputs[|outputs| - 1].amount
  }

  function AmountOf(i: Input): Amount {
    if i.KeyInput? then i.amount else 0
  }

  function InSum(inputs: seq<Input>): nat {
    if inputs == [] then 0 else InSum(inputs[..|inputs| - 1]) + AmountOf(inputs[|inputs| - 1])
  }

  lemma {:induction false} OutSumGrows(outputs: seq<Output>, n: nat)
    requires n <= |outputs|
    ensures OutSum(outputs[..n]) <= OutSum(outputs)
    decreases |outputs|
  {
    if n < |outputs| {
      OutSumGrows(outputs[..|outputs| - 1], n);
      assert outputs[..|outputs| - 1][..n] == outputs[..n];
    } else {
      assert outputs[..n] == outputs;
    }
  }

  lemma {:induction false} InSumGrows(inputs: seq<Input>, n: nat)
    requires n <= |inputs|
    ensures InSum(inputs[..n]) <= InSum(inputs)
    decreases |inputs|
  {
    if n < |inputs| {
      InSumGrows(inputs[..|inputs| - 1], n);
      assert inputs[..|inputs| - 1][..n] == inputs[..n];
    } else {
      assert inputs[..n] == inputs;
    }
  }

  // ---- one transaction ----

  ghost predicate GoodOutputs(outputs: seq<Output>, keyIsValid: KeyCheck) {
    forall i | 0 <= i < |outputs| :: outputs[i].amount > 0 && keyIsValid(outputs[i].key)
  }

  predicate GoodInput(i: Input) {
    i.KeyInput? && i.outputIndexes != [] && forall k | 0 < k < |i.outputIndexes| :: i.outputIndexes[k] != 0
  }

  ghost predicate GoodInputs(inputs: seq<Input>) {
    (forall i | 0 <= i < |inputs| :: GoodInput(inputs[i])) && DistinctKeyImages(inputs)
  }

  /** What a transaction must satisfy by itself. */
  ghost predicate SemanticallyValid(tx: Transaction, keyIsValid: KeyCheck) {
    && tx.inputs != [] && |tx.signatures| == |tx.inputs|
    && GoodOutputs(tx.outputs, keyIsValid) && GoodInputs(tx.inputs)
    && OutSum(tx.outputs) < UINT64_RANGE && InSum(tx.inputs) < UINT64_RANGE && OutSum(tx.outputs) <= InSum(tx.inputs)
  }

  /** The sum of the outputs, if they are good and their sum fits. */
  method CheckOutputs(outputs: seq<Output>, keyIsValid: KeyCheck) returns (sum: Option<nat>)
    ensures sum.Some? <==> GoodOutputs(outputs, keyIsValid) && OutSum(outputs) < UINT64_RANGE
    ensures sum.Some? ==> sum.value == OutSum(outputs)
  {
    hide OutSum;
    NoSums();
    var total := 0;
    assert outputs[..|outputs|] == outputs;
    for i := 0 to |outputs|
      invariant total == OutSum(outputs[..i]) < UINT64_RANGE
      invariant forall k | 0 <= k < i :: outputs[k].amount > 0 && keyIsValid(outputs[k].key)
    {
      if outputs[i].amount == 0 || !keyIsValid(outputs[i].key) {
        return None;
      }
      NextOutput(outputs, i);
      OutSumGrows(outputs, i + 1);
      if UINT64_RANGE - 1 - outputs[i].amount < total {
        return None;
      }
      total := total + outputs[i].amount;
    }
    return Some(total);
  }

  lemma {:induction false} NoSums()
    ensures OutSum([]) == 0 && InSum([]) == 0
  {
  }

  lemma {:induction false} NextOutput(outputs: seq<Output>, i: nat)
    requires i < |outputs|
    ensures OutSum(outputs[..i + 1]) == OutSum(outputs[..i]) + outputs[i].amount
  {
    assert outputs[..i + 1][..i] == outputs[..i];
  }

  lemma {:induction false} NextInput(inputs: seq<Input>, i: nat)
    requires i < |inputs|
    ensures InSum(inputs[..i + 1]) == InSum(inputs[..i]) + AmountOf(inputs[i])
  {
    assert inputs[..i + 1][..i] == inputs[..i];
  }

  /** The sum of the inputs, if they are good and their sum fits. */
  method CheckInputs(inputs: seq<Input>) returns (sum: Option<nat>)
    ensures sum.Some? <==> GoodInputs(inputs) && InSum(inputs) < UINT64_RANGE
    ensures sum.Some? ==> sum.value == InSum(inputs)
  {
    hide InSum;
    NoSums();
    var total := 0;
    var seen: set<KeyImage> := {};
    assert inputs[..|inputs|] == inputs;
    for i := 0 to |inputs|
      invariant total == InSum(inputs[..i]) < UINT64_RANGE
      invariant forall k | 0 <= k < i :: GoodInput(inputs[k])
      invariant forall ki :: ki in seen <==> exists k | 0 <= k < i :: inputs[k].KeyInput? && inputs[k].keyImage == ki
      invariant forall k, j | 0 <= k < j < i && inputs[k].KeyInput? && inputs[j].KeyInput? ::
                inputs[k].keyImage != inputs[j].keyImage
    {
      if !inputs[i].KeyInput? || inputs[i].keyImage in seen || !GoodInput(inputs[i]) {
        return None;
      }
      NextInput(inputs, i);
      InSumGrows(inputs, i + 1);
      seen := seen + {inputs[i].keyImage};
      if UINT64_RANGE - 1 - inputs[i].amount < total {
        return None;
      }
      total := total + inputs[i].amount;
    }
    return Some(total);
  }

  /** The fee of a transaction that is valid by itself, and only of such a one. No sum has wrapped. */
  method ValidateSemantic(tx: Transaction, keyIsValid: KeyCheck) returns (fee: Option<nat>)
    ensures fee.Some? <==> SemanticallyValid(tx, keyIsValid)
    ensures fee.Some? ==> fee.value == InSum(tx.inputs) - OutSum(tx.outputs)
  {
    if tx.inputs == [] {
      return None;
    }
    hide GoodInputs, GoodOutputs;
    var outSum := CheckOutputs(tx.outputs, keyIsValid);
    if outSum.None? {
      return None;
    }
    var inSum := CheckInputs(tx.inputs);
    if inSum.None? || outSum.value > inSum.value || |tx.signatures| != |tx.inputs| {
      return None;
    }
    return Some(inSum.value - outSum.value);
  }

  function ImagesOf(inputs: seq<Input>): seq<KeyImage> {
    if inputs == [] then []
    else
      var last := inputs[|inputs| - 1];
      ImagesOf(inputs[..|inputs| - 1]) + if last.KeyInput? then [last.keyImage] else []
  }

  lemma {:induction false} ImagesInOrder(inputs: seq<Input>)
    requires forall i | 0 <= i < |inputs| :: inputs[i].KeyInput?
    ensures |ImagesOf(inputs)| == |inputs| && forall i | 0 <= i < |inputs| :: ImagesOf(inputs)[i] == inputs[i].keyImage
  {
    if inputs != [] {
      ImagesInOrder(inputs[..|inputs| - 1]);
    }
  }

  /** What the memory pool relies on: a transaction that is valid by itself names no key image twice. */
  lemma {:induction false} ValidIsAdmissible(tx: Transaction, keyIsValid: KeyCheck)
    requires SemanticallyValid(tx, keyIsValid)
    ensures Mempools.DistinctKeyImages(ImagesOf(tx.inputs))
  {
    ImagesInOrder(tx.inputs);
  }

  /** The fee as the pool and the block check compute it first: sums in 64 bits, nothing else looked at. */
  function TxFee(tx: Transaction): Option<nat> {
    var amountIn, amountOut := InSum(tx.inputs) % UINT64_RANGE, OutSum(tx.outputs) % UINT64_RANGE;
    if amountIn < amountOut then None else Some(amountIn - amountOut)
  }

  // ---- one block ----

  function FeeSum(txs: seq<Transaction>): nat {
    if txs == [] then 0
    else
      var fee := TxFee(txs[|txs| - 1]);
      FeeSum(txs[..|txs| - 1]) + if fee.Some? then fee.value else 0
  }

  predicate AllHaveFees(txs: seq<Transaction>) {
    forall i | 0 <= i < |txs| :: TxFee(txs[i]).Some?
  }

  /** What the block header check knows about a block. */
  datatype Params = Params(version: nat, median: nat, size: nat)

  predicate ParamsOk(p: Params) {
    p.size <= 2 * p.median && p.median < UINT32_RANGE && p.size < UINT32_RANGE
  }

  /** The money part of the check of a block: the coins generated so far afterwards, if it is accepted. */
  ghost function AcceptedMoney(b: Block, p: Params, generated: nat, keyIsValid: KeyCheck): Option<nat>
    requires generated <= MONEY_SUPPLY && ParamsOk(p)
  {
    var outputs := b.baseTransaction.outputs;
    if !GoodOutputs(outputs, keyIsValid) || OutSum(outputs) >= UINT64_RANGE || !AllHaveFees(b.transactions) then None
    else
      var r := RewardOf(p.version, p.median, p.size, generated, FeeSum(b.transactions) % UINT64_RANGE);
      if OutSum(outputs) != r.reward || !(forall tx <- b.transactions :: SemanticallyValid(tx, keyIsValid)) then None
      else Some((generated + r.emission) % UINT64_RANGE)
  }

  method CheckMoney(b: Block, p: Params, generated: nat, keyIsValid: KeyCheck) returns (r: Option<nat>)
    requires generated <= MONEY_SUPPLY && ParamsOk(p)
    ensures r == AcceptedMoney(b, p, generated, keyIsValid)
  {
    hide GoodOutputs, SemanticallyValid, RewardOf, TxFee, OutSum;
    var minerReward := CheckOutputs(b.baseTransaction.outputs, keyIsValid);
    if minerReward.None? {
      return None;
    }
    var txs := b.transactions;
    var fees := 0;
    assert txs[..|txs|] == txs && FeeSum([]) == 0;
    for i := 0 to |txs|
      invariant fees == FeeSum(txs[..i]) % UINT64_RANGE && forall k | 0 <= k < i :: TxFee(txs[k]).Some?
    {
      var fee := TxFee(txs[i]);
      if fee.None? {
        return None;
      }
      assert txs[..i + 1][..i] == txs[..i];
      fees := (fees + fee.value) % UINT64_RANGE;
    }
    var reward := GetBlockReward(p.version, p.median, p.size, generated, fees);
    if minerReward.value != reward.reward {
      return None;
    }
    for i := 0 to |txs|
      invariant forall k | 0 <= k < i :: SemanticallyValid(txs[k], keyIsValid)
    {
      var fee := ValidateSemantic(txs[i], keyIsValid);
      if fee.None? {
        return None;
      }
    }
    return Some((generated + reward.emission) % UINT64_RANGE);
  }

  /** What the transactions of a block put out beyond what they take in. */
  function Net(txs: seq<Transaction>): int {
    if txs == [] then 0
    else Net(txs[..|txs| - 1]) + OutSum(txs[|txs| - 1].outputs) - InSum(txs[|txs| - 1].inputs)
  }

  lemma {:induction false} NetIsFees(txs: seq<Transaction>, keyIsValid: KeyCheck)
    requires forall i | 0 <= i < |txs| :: SemanticallyValid(txs[i], keyIsValid)
    ensures Net(txs) + FeeSum(txs) == 0
  {
    if txs != [] {
      NetIsFees(txs[..|txs| - 1], keyIsValid);
      FeeOfValid(txs[|txs| - 1], keyIsValid);
      hide TxFee, SemanticallyValid;
    }
  }

  lemma {:induction false} FeeOfValid(tx: Transaction, keyIsValid: KeyCheck)
    requires SemanticallyValid(tx, keyIsValid)
    ensures TxFee(tx) == Some(InSum(tx.inputs) - OutSum(tx.outputs))
  {
    hide GoodInputs, GoodOutputs;
  }

  /** Whatever wraps on the way, the counter after an accepted block is in 64 bits what it was before, and what the
      block puts out beyond what it takes in; without a wrap that is never more than the money supply. */
  lemma {:induction false} BlockConservesModulo(b: Block, p: Params, generated: nat, keyIsValid: KeyCheck)
    requires generated <= MONEY_SUPPLY && ParamsOk(p) && CoinbaseOnly(b)
    requires AcceptedMoney(b, p, generated, keyIsValid).Some?
    ensures AcceptedMoney(b, p, generated, keyIsValid).value == (generated + Net(AllTxs(b))) % UINT64_RANGE
    ensures generated + Net(AllTxs(b)) <= MONEY_SUPPLY
    ensures Net(AllTxs(b)) == OutSum(b.baseTransaction.outputs) - FeeSum(b.transactions)
  {
    hide Penalized, BaseReward, SemanticallyValid, GoodOutputs, TxFee, AcceptedMoney, RewardOf, FeeSum, Net, OutSum,
        AllTxs;
    AcceptedMeans(b, p, generated, keyIsValid);
    NetIsFees(b.transactions, keyIsValid);
    CoinbaseFirst(b);
    RewardInWidth(p, generated, FeeSum(b.transactions));
  }

  /** An accepted block puts out exactly as much more than it takes in as the counter grows, if and only if its fees do
      not exceed what was generated before and what the miner gets. */
  lemma {:induction false} BlockConserves(b: Block, p: Params, generated: nat, keyIsValid: KeyCheck)
    requires generated <= MONEY_SUPPLY && ParamsOk(p) && CoinbaseOnly(b)
    requires AcceptedMoney(b, p, generated, keyIsValid).Some?
    ensures var after := AcceptedMoney(b, p, generated, keyIsValid).value;
            Net(AllTxs(b)) == after - generated <==>
                FeeSum(b.transactions) <= generated + OutSum(b.baseTransaction.outputs)
  {
    hide SemanticallyValid, GoodOutputs, TxFee, AcceptedMoney, FeeSum, Net, OutSum, AllTxs;
    BlockConservesModulo(b, p, generated, keyIsValid);
  }

  /** The counter can wrap after any number of generated coins and at any size above the median: a block with one
      transaction, whose fee loses more to the penalty than there is, is accepted when its miner takes the right
      reward. */
  lemma {:induction false} CounterCanWrap(b: Block, p: Params, generated: nat, fee: nat, ki: KeyImage,
                                          keyIsValid: KeyCheck)
    requires generated <= MONEY_SUPPLY && ParamsOk(p) && p.version >= 2 && p.median < p.size && CoinbaseOnly(b)
    requires |b.transactions| == 1 && b.transactions[0].inputs == [KeyInput(fee, [0], ki)]
    requires b.transactions[0].outputs == [] && |b.transactions[0].signatures| == 1
    requires fee < UINT64_RANGE
    requires fee - Penalized(fee, p.median, p.size) > generated
             + Penalized(BaseReward(p.version, generated), p.median, p.size)
    requires GoodOutputs(b.baseTransaction.outputs, keyIsValid)
    requires OutSum(b.baseTransaction.outputs) == RewardOf(p.version, p.median, p.size, generated, fee).reward
    ensures Net(AllTxs(b)) == OutSum(b.baseTransaction.outputs) - fee && generated + Net(AllTxs(b)) < 0
    ensures var after := AcceptedMoney(b, p, generated, keyIsValid);
            after.Some? && after.value == UINT64_RANGE + generated + Net(AllTxs(b))
  {
    hide SemanticallyValid, TxFee, BaseReward, Penalized, RewardOf, GoodOutputs, FeeSum, Net, AllTxs, OutSum;
    OneFee(b.transactions, fee, ki, keyIsValid);
    RewardBelow(p, generated, fee);
    assert fee % UINT64_RANGE == fee;
    assert AcceptedMoney(b, p, generated, keyIsValid).Some?;
    hide AcceptedMoney;
    BlockConservesModulo(b, p, generated, keyIsValid);
  }

  lemma {:induction false} OneFee(txs: seq<Transaction>, fee: nat, ki: KeyImage, keyIsValid: KeyCheck)
    requires |txs| == 1 && txs[0].inputs == [KeyInput(fee, [0], ki)] && fee < UINT64_RANGE
    requires txs[0].outputs == [] && |txs[0].signatures| == 1
    ensures FeeSum(txs) == fee && AllHaveFees(txs) && forall tx <- txs :: SemanticallyValid(tx, keyIsValid)
  {
    var tx := txs[0];
    NoSums();
    NextInput(tx.inputs, 0);
    assert tx.inputs[..1] == tx.inputs && tx.inputs[..0] == [];
    assert InSum(tx.inputs) == fee;
    hide InSum, OutSum;
    assert TxFee(tx) == Some(fee);
    assert SemanticallyValid(tx, keyIsValid);
    assert txs[..0] == [] && FeeSum([]) == 0;
    hide SemanticallyValid, TxFee;
  }

  lemma {:induction false} RewardBelow(p: Params, generated: nat, fee: nat)
    requires generated <= MONEY_SUPPLY && ParamsOk(p) && fee < UINT64_RANGE && p.version >= 2
    requires fee - Penalized(fee, p.median, p.size) > generated
             + Penalized(BaseReward(p.version, generated), p.median, p.size)
    ensures RewardOf(p.version, p.median, p.size, generated, fee).reward < fee - generated
  {
    hide Penalized, BaseReward;
  }

  /** Already the largest block above the smallest median at height 2 loses that much, when the fee is large enough. */
  lemma {:induction false} LossAtHeight2(generated: nat)
    requires generated <= 0x2_0000_0000_0000
    ensures var fee := 0x4000_0000_0000_0000;
            fee - Penalized(fee, 20000, 20480) > generated + Penalized(BaseReward(2, generated), 20000, 20480)
  {
    PenaltyGrowsWithSize(BaseReward(2, generated), 20000, 20000, 20480);
    var fee := 0x4000_0000_0000_0000;
    assert KeptNat(20000, 20480) == 399769600;
    assert Penalized(fee, 20000, 20480) == 4609029687280773728;
    assert BaseReward(2, generated) <= 0x1_0000_0000_0000;
    hide Penalized, BaseReward;
  }

  lemma {:induction false} AcceptedMeans(b: Block, p: Params, generated: nat, keyIsValid: KeyCheck)
    requires generated <= MONEY_SUPPLY && ParamsOk(p)
    requires AcceptedMoney(b, p, generated, keyIsValid).Some?
    ensures var r := RewardOf(p.version, p.median, p.size, generated, FeeSum(b.transactions) % UINT64_RANGE);
            && OutSum(b.baseTransaction.outputs) == r.reward < UINT64_RANGE
            && AcceptedMoney(b, p, generated, keyIsValid).value == (generated + r.emission) % UINT64_RANGE
    ensures forall i | 0 <= i < |b.transactions| :: SemanticallyValid(b.transactions[i], keyIsValid)
  {
    hide Penalized, BaseReward, SemanticallyValid, GoodOutputs, TxFee, RewardOf, FeeSum, OutSum;
  }

  /** The reward and the emission in 64 bits, for fees that may have wrapped. */
  lemma {:induction false} RewardInWidth(p: Params, generated: nat, fees: nat)
    requires generated <= MONEY_SUPPLY && ParamsOk(p)
    ensures var r := RewardOf(p.version, p.median, p.size, generated, fees % UINT64_RANGE);
            && (generated + r.emission) % UINT64_RANGE == (generated + r.reward - fees) % UINT64_RANGE
            && generated + r.reward - fees <= MONEY_SUPPLY
  {
    hide Penalized, BaseReward;
    var fee := fees % UINT64_RANGE;
    var base := Penalized(BaseReward(p.version, generated), p.median, p.size);
    var kept := if p.version >= 2 then Penalized(fee, p.median, p.size) else fee;
    EmissionIsExact(p.version, p.median, p.size, generated, fee);
    WrapsAlike(generated, base, kept, fees);
  }

  lemma {:induction false} WrapsAlike(generated: nat, base: nat, kept: nat, fees: nat)
    ensures var fee := fees % UINT64_RANGE;
            && (generated + (base - (fee - kept)) % UINT64_RANGE) % UINT64_RANGE
               == (generated + (base + kept) % UINT64_RANGE - fees) % UINT64_RANGE
            && (base + kept) % UINT64_RANGE - fees <= base + kept - fee
  {
    var fee, x := fees % UINT64_RANGE, generated + base + kept - fees % UINT64_RANGE;
    var p, q, r := fees / UINT64_RANGE, (base + kept) / UINT64_RANGE, (base - (fee - kept)) / UINT64_RANGE;
    assert generated + (base - (fee - kept)) % UINT64_RANGE == x - r * UINT64_RANGE;
    assert generated + (base + kept) % UINT64_RANGE - fees == x - (p + q) * UINT64_RANGE;
    MultipleWraps(x, r);
    MultipleWraps(x, p + q);
  }

  lemma {:induction false} MultipleWraps(x: int, k: int)
    ensures (x - k * UINT64_RANGE) % UINT64_RANGE == x % UINT64_RANGE
  {
  }

  lemma {:induction false} NetAppend(xs: seq<Transaction>, ys: seq<Transaction>)
    ensures Net(xs + ys) == Net(xs) + Net(ys)
  {
    if ys == [] {
      assert xs + ys == xs;
    } else {
      var all, n := xs + ys, |ys| - 1;
      assert all[..|all| - 1] == xs + ys[..n];
      NetAppend(xs, ys[..n]);
    }
  }

  lemma {:induction false} CoinbaseFirst(b: Block)
    requires CoinbaseOnly(b)
    ensures Net(AllTxs(b)) == OutSum(b.baseTransaction.outputs) + Net(b.transactions)
  {
    var base := b.baseTransaction;
    NetAppend([base], b.transactions);
    assert [base][..0] == [] && base.inputs[..0] == [];
    assert InSum(base.inputs) == 0;
  }

  // ---- a chain ----

  /** The coins generated by a chain of accepted blocks, from nothing. */
  ghost predicate AcceptedChain(bs: seq<(Block, Params)>, keyIsValid: KeyCheck, generated: nat) {
    if bs == [] then generated == 0
    else
      var rest, b := bs[..|bs| - 1], bs[|bs| - 1];
      exists before: nat :: AcceptedChain(rest, keyIsValid, before) && AcceptedNext(b, keyIsValid, before, generated)
  }

  ghost predicate AcceptedNext(b: (Block, Params), keyIsValid: KeyCheck, before: nat, after: nat) {
    && before <= MONEY_SUPPLY && ParamsOk(b.1) && CoinbaseOnly(b.0)
    && AcceptedMoney(b.0, b.1, before, keyIsValid) == Some(after)
  }

  function ChainNet(bs: seq<(Block, Params)>): int {
    if bs == [] then 0 else ChainNet(bs[..|bs| - 1]) + Net(AllTxs(bs[|bs| - 1].0))
  }

  /** Along every accepted chain, all outputs less all inputs are in 64 bits the coins that were generated, and never
      exceed the money supply; they are exactly these coins if and only if no more was taken in than put out. */
  lemma {:induction false} ChainConserves(bs: seq<(Block, Params)>, keyIsValid: KeyCheck, generated: nat)
    requires AcceptedChain(bs, keyIsValid, generated)
    ensures generated == ChainNet(bs) % UINT64_RANGE && ChainNet(bs) <= MONEY_SUPPLY
    ensures generated == ChainNet(bs) <==> ChainNet(bs) >= 0
  {
    hide Net, AcceptedMoney;
    if bs != [] {
      var rest, b := bs[..|bs| - 1], bs[|bs| - 1];
      var before: nat :| AcceptedChain(rest, keyIsValid, before) && AcceptedNext(b, keyIsValid, before, generated);
      ChainConserves(rest, keyIsValid, before);
      BlockConservesModulo(b.0, b.1, before, keyIsValid);
      CounterFollows(ChainNet(rest), before, Net(AllTxs(b.0)), generated);
    }
  }

  lemma {:induction false} CounterFollows(sum: int, before: nat, net: int, after: nat)
    requires before == sum % UINT64_RANGE && sum <= MONEY_SUPPLY
    requires after == (before + net) % UINT64_RANGE && before + net <= MONEY_SUPPLY
    ensures after == (sum + net) % UINT64_RANGE && sum + net <= MONEY_SUPPLY
    ensures after == sum + net <==> sum + net >= 0
  {
  }
}
