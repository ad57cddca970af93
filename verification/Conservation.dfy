/** Money in the database: what the stacked outputs of a replayed chain are worth, against what was generated and what
    was spent. Ring signatures hide which output an input spends, so outputs and inputs are compared by amount. */
module Conservation {
  import opened ChainTypes
  import opened Ledgers
  import opened Execution
  import opened Overlay
  import opened Spending
  import opened DeltaStates
  import opened Replaying
  import opened BlockTree
  import opened BlockChains
  import opened Currencies
  import opened Moneys

  // ---- sums over all amounts ----

  /** What so many things of each amount below n are worth. */
  function Total(n: nat, count: Amount -> nat): nat {
    if n == 0 then 0 else Total(n - 1, count) + (n - 1) * count(n - 1)
  }

  lemma {:induction false} TotalPlus(n: nat, f: Amount -> nat, g: Amount -> nat, h: Amount -> nat)
    requires forall a | 0 <= a < n :: f(a) == g(a) + h(a)
    ensures Total(n, f) == Total(n, g) + Total(n, h)
  {
    if n > 0 {
      TotalPlus(n - 1, f, g, h);
      assert (n - 1) * f(n - 1) == (n - 1) * g(n - 1) + (n - 1) * h(n - 1);
    }
  }

  /** One thing of amount x, or none. */
  lemma {:induction false} TotalOne(n: nat, f: Amount -> nat, x: Option<Amount>)
    requires forall a | 0 <= a < n :: f(a) == if x == Some(a) then 1 else 0
    ensures Total(n, f) == if x.Some? && x.value < n then x.value else 0
  {
    if n > 0 {
      TotalOne(n - 1, f, x);
    }
  }

  lemma {:induction false} TotalAtMost(n: nat, f: Amount -> nat, g: Amount -> nat)
    requires forall a | 0 <= a < n :: f(a) <= g(a)
    ensures Total(n, f) <= Total(n, g)
  {
    if n > 0 {
      TotalAtMost(n - 1, f, g);
      AtMostTimes(n - 1, f(n - 1), g(n - 1));
    }
  }

  lemma {:induction false} AtMostTimes(a: nat, x: nat, y: nat)
    requires x <= y
    ensures a * x <= a * y
  {
    assert a * y == a * x + a * (y - x);
    assert a * (y - x) >= 0;
  }

  // ---- outputs ----

  ghost predicate SmallOutputs(outputs: seq<Output>) {
    forall i | 0 <= i < |outputs| :: outputs[i].amount < UINT64_RANGE
  }

  function OutTotal(txs: seq<Transaction>): nat {
    if txs == [] then 0 else OutTotal(txs[..|txs| - 1]) + OutSum(txs[|txs| - 1].outputs)
  }

  lemma {:induction false} OutputsTotal(unlockTime: nat, outputs: seq<Output>)
    requires SmallOutputs(outputs)
    ensures Total(UINT64_RANGE, a => |OutputsOf(unlockTime, outputs, a)|) == OutSum(outputs)
  {
    hide Total;
    if outputs == [] {
      TotalOne(UINT64_RANGE, a => |OutputsOf(unlockTime, outputs, a)|, None);
    } else {
      var n := |outputs| - 1;
      var x := outputs[n].amount;
      OutputsTotal(unlockTime, outputs[..n]);
      var one := (a: Amount) => if a == x then 1 else 0;
      TotalOne(UINT64_RANGE, one, Some(x));
      TotalPlus(UINT64_RANGE, a => |OutputsOf(unlockTime, outputs, a)|, a => |OutputsOf(unlockTime, outputs[..n], a)|,
          one);
    }
  }

  lemma {:induction false} AllOutputsTotal(txs: seq<Transaction>)
    requires forall tx <- txs :: SmallOutputs(tx.outputs)
    ensures Total(UINT64_RANGE, a => |AllOutputsOf(txs, a)|) == OutTotal(txs)
  {
    hide Total, SmallOutputs;
    if txs == [] {
      TotalOne(UINT64_RANGE, a => |AllOutputsOf(txs, a)|, None);
    } else {
      var n := |txs| - 1;
      AllOutputsTotal(txs[..n]);
      assert txs[n] in txs;
      OutputsTotal(txs[n].unlockTime, txs[n].outputs);
      TotalPlus(UINT64_RANGE, a => |AllOutputsOf(txs, a)|, a => |AllOutputsOf(txs[..n], a)|,
                a => |OutputsOf(txs[n].unlockTime, txs[n].outputs, a)|);
    }
  }

  /** The worth of all outputs in the database, whether they are flagged as spent or not. */
  function Stacked(l: Ledger): nat {
    Total(UINT64_RANGE, a => |Stack(l, a)|)
  }

  lemma {:induction false} StackedGrows(l: Ledger, txs: seq<Transaction>, h: Height)
    requires forall tx <- txs :: SmallOutputs(tx.outputs)
    ensures Stacked(ExecTxs(l, txs, h)) == Stacked(l) + OutTotal(txs)
  {
    hide Total, Stack, ExecTxs, SmallOutputs;
    forall a
      ensures |Stack(ExecTxs(l, txs, h), a)| == |Stack(l, a)| + |AllOutputsOf(txs, a)|
    {
      ExecutedSize(l, txs, h, a);
    }
    AllOutputsTotal(txs);
    TotalPlus(UINT64_RANGE, a => |Stack(ExecTxs(l, txs, h), a)|, a => |Stack(l, a)|, a => |AllOutputsOf(txs, a)|);
  }

  // ---- inputs ----

  function CountInputs(inputs: seq<Input>, a: Amount): nat {
    if inputs == [] then 0
    else
      var last := inputs[|inputs| - 1];
      CountInputs(inputs[..|inputs| - 1], a) + if last.KeyInput? && last.amount == a then 1 else 0
  }

  ghost predicate SmallInputs(inputs: seq<Input>) {
    forall i | 0 <= i < |inputs| && inputs[i].KeyInput? :: inputs[i].amount < UINT64_RANGE
  }

  lemma {:induction false} InputsTotal(inputs: seq<Input>)
    requires SmallInputs(inputs)
    ensures Total(UINT64_RANGE, a => CountInputs(inputs, a)) == InSum(inputs)
  {
    hide Total;
    if inputs == [] {
      TotalOne(UINT64_RANGE, a => CountInputs(inputs, a), None);
    } else {
      var n := |inputs| - 1;
      InputsTotal(inputs[..n]);
      var x := if inputs[n].KeyInput? then Some(inputs[n].amount) else None;
      var one := (a: Amount) => if x == Some(a) then 1 else 0;
      TotalOne(UINT64_RANGE, one, x);
      TotalPlus(UINT64_RANGE, a => CountInputs(inputs, a), a => CountInputs(inputs[..n], a), one);
    }
  }

  /** The key images of the inputs of an amount. */
  function Images(inputs: seq<Input>, a: Amount): set<KeyImage> {
    if inputs == [] then {}
    else
      var last := inputs[|inputs| - 1];
      Images(inputs[..|inputs| - 1], a) + if last.KeyInput? && last.amount == a then {last.keyImage} else {}
  }

  lemma {:induction false} ImagesMember(inputs: seq<Input>, a: Amount, ki: KeyImage)
    ensures ki in Images(inputs, a) <==>
            exists i :: 0 <= i < |inputs| && inputs[i].KeyInput? && inputs[i].amount == a && inputs[i].keyImage == ki
  {
    if inputs != [] {
      var n := |inputs| - 1;
      ImagesMember(inputs[..n], a, ki);
      if i :| 0 <= i < |inputs| && inputs[i].KeyInput? && inputs[i].amount == a && inputs[i].keyImage == ki {
        assert i < n ==> inputs[..n][i] == inputs[i];
      }
    }
  }

  /** Inputs with different key images are as many as their key images. */
  lemma {:induction false} CountIsImages(inputs: seq<Input>, a: Amount)
    requires DistinctKeyImages(inputs)
    ensures |Images(inputs, a)| == CountInputs(inputs, a)
  {
    if inputs != [] {
      var n := |inputs| - 1;
      assert forall i | 0 <= i < n :: inputs[..n][i] == inputs[i];
      CountIsImages(inputs[..n], a);
      if inputs[n].KeyInput? {
        ImagesMember(inputs[..n], a, inputs[n].keyImage);
      }
    }
  }

  // ---- every input spends an output of its own ----

  /** The key images that can spend the outputs of a stack. */
  function Owners(s: seq<Entry>, owner: Owner): set<KeyImage> {
    set e | e in s :: owner(e.key)
  }

  lemma {:induction false} OwnersAtMost(s: seq<Entry>, owner: Owner)
    ensures |Owners(s, owner)| <= |s|
  {
    if s != [] {
      var n := |s| - 1;
      OwnersAtMost(s[..n], owner);
      assert s == s[..n] + [s[n]];
      assert Owners(s, owner) == Owners(s[..n], owner) + {owner(s[n].key)};
    }
  }

  lemma {:induction false} SubsetAtMost(s: set<KeyImage>, t: set<KeyImage>)
    requires s <= t
    ensures |s| <= |t|
    decreases |s|
  {
    if x :| x in s {
      SubsetAtMost(s - {x}, t - {x});
    }
  }

  /** A valid ring signature has the key image of one of its members. */
  ghost predicate RingsHaveOwners(ringValid: RingCheck, owner: Owner) {
    forall tx: Transaction, k: nat, keys: seq<PublicKey> ::
      k < |tx.inputs| && tx.inputs[k].KeyInput? && ringValid(tx, k, keys) ==>
        exists i | 0 <= i < |keys| :: owner(keys[i]) == tx.inputs[k].keyImage
  }

  ghost predicate Owned(l: Ledger, i: Input, owner: Owner) {
    i.KeyInput? ==> i.keyImage in Owners(Stack(l, i.amount), owner)
  }

  lemma {:induction false} SignedIsOwned(l: Ledger, tx: Transaction, j: nat, h: Height, ts: nat, ringValid: RingCheck,
                                         owner: Owner)
    requires j < |tx.inputs| && InputSigned(l, tx, j, h, ts, ringValid) && RingsHaveOwners(ringValid, owner)
    ensures Owned(l, tx.inputs[j], owner)
    ensures tx.inputs[j].KeyInput? ==> tx.inputs[j].keyImage !in l.keyImages
  {
    var i := tx.inputs[j];
    if i.KeyInput? {
      var keys := ResolveInput(Base(l), i, h, ts).keys;
      var k :| 0 <= k < |keys| && owner(keys[k]) == i.keyImage;
      var indexes := AbsoluteIndexes(i.outputIndexes);
      ResolvedMember(Base(l), i.amount, indexes, h, ts, k);
      assert Stack(l, i.amount)[indexes[k]] in Stack(l, i.amount);
    }
  }

  /** Whoever owns an output keeps owning it: executing adds outputs and changes flags, and nothing else. */
  lemma {:induction false} OwnedStays(l: Ledger, txs: seq<Transaction>, h: Height, i: Input, owner: Owner)
    requires Owned(l, i, owner)
    ensures Owned(ExecTxs(l, txs, h), i, owner)
  {
    if i.KeyInput? {
      var s, t := Stack(l, i.amount), Stack(ExecTxs(l, txs, h), i.amount);
      var e :| e in s && owner(e.key) == i.keyImage;
      var g :| 0 <= g < |s| && s[g] == e;
      TxsStackButSpent(l, txs, h, i.amount);
      hide ExecTxs;
      UnflaggedAt(s, g);
      assert |t| == |Unflagged(t)| >= |s|;
      UnflaggedAt(t, g);
      assert t[g] in t && t[g].key == e.key;
    }
  }

  function ChainInputs(bs: seq<Block>): seq<Input> {
    if bs == [] then [] else ChainInputs(bs[..|bs| - 1]) + AllInputs(AllTxs(bs[|bs| - 1]))
  }

  /** The inputs of a chain have different key images, which are those stored, and each is that of an output of its
      amount. */
  ghost predicate SpendsOnce(bs: seq<Block>, owner: Owner) {
    var l, inputs := Replay(bs).ledger, ChainInputs(bs);
    && DistinctKeyImages(inputs)
    && l.keyImages.Keys == KeyImagesOf(inputs, 0).Keys
    && forall i <- inputs :: Owned(l, i, owner)
  }

  lemma {:induction false} SameImages(inputs: seq<Input>, h: Height)
    ensures KeyImagesOf(inputs, h).Keys == KeyImagesOf(inputs, 0).Keys
  {
    if inputs != [] {
      SameImages(inputs[..|inputs| - 1], h);
    }
  }

  lemma {:induction false} AppliedBlock(db: Db, b: Block, h: Height, ringValid: RingCheck, owner: Owner)
    requires CoinbaseOnly(b) && Verdict(db, b, h, ringValid).Applied? && RingsHaveOwners(ringValid, owner)
    ensures DistinctKeyImages(AllInputs(AllTxs(b)))
    ensures forall i <- AllInputs(AllTxs(b)) ::
            Owned(db.ledger, i, owner) && (i.KeyInput? ==> i.keyImage !in db.ledger.keyImages)
  {
    var l, inputs := db.ledger, AllInputs(AllTxs(b));
    BlockArgsMeaning(l, b.transactions, h, b.timestamp, ringValid);
    assert DistinctKeyImages(inputs) && Replaying.SignaturesValid(l, b.transactions, h, b.timestamp, ringValid);
    hide Verdict, BlockArgs, AllInputs, InputSigned, Owned, RingsHaveOwners;
    forall x | 0 <= x < |inputs|
      ensures Owned(l, inputs[x], owner) && (inputs[x].KeyInput? ==> inputs[x].keyImage !in l.keyImages)
    {
      var k, j := InputOrigin(AllTxs(b), x);
      if k == 0 {
        CoinbaseIsOwned(l, inputs[x], owner);
      } else {
        assert AllTxs(b)[k] == b.transactions[k - 1];
        assert InputSigned(l, b.transactions[k - 1], j, h, b.timestamp, ringValid);
        SignedIsOwned(l, b.transactions[k - 1], j, h, b.timestamp, ringValid, owner);
      }
    }
  }

  lemma {:induction false} CoinbaseIsOwned(l: Ledger, i: Input, owner: Owner)
    requires i.CoinbaseInput?
    ensures Owned(l, i, owner)
  {
  }

  lemma {:induction false} ChainSpendsOnce(bs: seq<Block>, ringValid: RingCheck, owner: Owner)
    requires AppliedChain(bs, ringValid) && RingsHaveOwners(ringValid, owner)
    ensures SpendsOnce(bs, owner)
  {
    hide Verdict, RingsHaveOwners, SpendsOnce, Replay;
    if bs == [] {
      NothingSpent(owner);
    } else {
      var n := |bs| - 1;
      ChainSpendsOnce(bs[..n], ringValid, owner);
      BlockSpendsOnce(bs[..n], bs[n], ringValid, owner);
      assert bs[..n] + [bs[n]] == bs;
    }
  }

  lemma {:induction false} NothingSpent(owner: Owner)
    ensures SpendsOnce([], owner)
  {
  }

  lemma {:induction false} BlockSpendsOnce(bs: seq<Block>, b: Block, ringValid: RingCheck, owner: Owner)
    requires SpendsOnce(bs, owner) && RingsHaveOwners(ringValid, owner)
    requires CoinbaseOnly(b) && Verdict(Replay(bs), b, |bs|, ringValid).Applied?
    ensures SpendsOnce(bs + [b], owner)
  {
    hide Verdict, RingsHaveOwners, Owned, ExecTxs, CoinbaseOnly, AllTxs;
    var l, before, inputs := Replay(bs).ledger, ChainInputs(bs), AllInputs(AllTxs(b));
    assert (bs + [b])[..|bs|] == bs;
    AppliedBlock(Replay(bs), b, |bs|, ringValid, owner);
    assert Replay(bs + [b]).ledger == ExecTxs(l, AllTxs(b), |bs|);
    assert ChainInputs(bs + [b]) == before + inputs;
    NewImages(l, inputs);
    DistinctAppend(before, inputs, 0);
    KeyImagesAppend(before, inputs, 0);
    TxsKeyImages(l, AllTxs(b), |bs|);
    SameImages(inputs, |bs|);
    forall i | i in before + inputs
      ensures Owned(ExecTxs(l, AllTxs(b), |bs|), i, owner)
    {
      OwnedStays(l, AllTxs(b), |bs|, i, owner);
    }
  }

  lemma {:induction false} NewImages(l: Ledger, inputs: seq<Input>)
    requires forall i <- inputs :: i.KeyInput? ==> i.keyImage !in l.keyImages
    ensures KeyImagesOf(inputs, 0).Keys !! l.keyImages.Keys
  {
    forall ki | ki in KeyImagesOf(inputs, 0)
      ensures ki !in l.keyImages
    {
      KeyImagesMember(inputs, 0, ki);
    }
  }

  /** No amount is spent more often than there are outputs of it. */
  lemma {:induction false} SpentAtMostStacked(bs: seq<Block>, owner: Owner, a: Amount)
    requires SpendsOnce(bs, owner)
    ensures CountInputs(ChainInputs(bs), a) <= |Stack(Replay(bs).ledger, a)|
  {
    hide Replay, ChainInputs, DistinctKeyImages;
    var s, inputs := Stack(Replay(bs).ledger, a), ChainInputs(bs);
    forall ki | ki in Images(inputs, a)
      ensures ki in Owners(s, owner)
    {
      ImagesMember(inputs, a, ki);
      var i :| 0 <= i < |inputs| && inputs[i].KeyInput? && inputs[i].amount == a && inputs[i].keyImage == ki;
      assert inputs[i] in inputs;
    }
    CountIsImages(inputs, a);
    SubsetAtMost(Images(inputs, a), Owners(s, owner));
    OwnersAtMost(s, owner);
  }

  /** What was spent along a chain is worth at most the outputs in the database. */
  lemma {:induction false} InputsWithinOutputs(bs: seq<Block>, ringValid: RingCheck, owner: Owner)
    requires AppliedChain(bs, ringValid) && RingsHaveOwners(ringValid, owner) && SmallInputs(ChainInputs(bs))
    ensures InSum(ChainInputs(bs)) <= Stacked(Replay(bs).ledger)
  {
    hide Total, Replay, ChainInputs, CountInputs, Stack, Verdict, InSum, SpendsOnce, RingsHaveOwners, SmallInputs;
    ChainSpendsOnce(bs, ringValid, owner);
    InputsTotal(ChainInputs(bs));
    forall a
      ensures CountInputs(ChainInputs(bs), a) <= |Stack(Replay(bs).ledger, a)|
    {
      SpentAtMostStacked(bs, owner, a);
    }
    TotalAtMost(UINT64_RANGE, a => CountInputs(ChainInputs(bs), a), a => |Stack(Replay(bs).ledger, a)|);
  }

  // ---- against what was generated ----

  function Blocks(bs: seq<(Block, Params)>): (r: seq<Block>)
    ensures |r| == |bs|
  {
    if bs == [] then [] else Blocks(bs[..|bs| - 1]) + [bs[|bs| - 1].0]
  }

  lemma {:induction false} InSumAppend(xs: seq<Input>, ys: seq<Input>)
    ensures InSum(xs + ys) == InSum(xs) + InSum(ys)
  {
    if ys == [] {
      assert xs + ys == xs;
    } else {
      var all, n := xs + ys, |ys| - 1;
      assert all[..|all| - 1] == xs + ys[..n];
      InSumAppend(xs, ys[..n]);
    }
  }

  lemma {:induction false} NetIsDifference(txs: seq<Transaction>)
    ensures Net(txs) == OutTotal(txs) - InSum(AllInputs(txs))
  {
    if txs != [] {
      var n := |txs| - 1;
      NetIsDifference(txs[..n]);
      InSumAppend(AllInputs(txs[..n]), txs[n].inputs);
    }
  }

  lemma {:induction false} AmountsBelow(outputs: seq<Output>)
    requires OutSum(outputs) < UINT64_RANGE
    ensures SmallOutputs(outputs)
  {
    if outputs != [] {
      AmountsBelow(outputs[..|outputs| - 1]);
      assert forall i | 0 <= i < |outputs| - 1 :: outputs[..|outputs| - 1][i] == outputs[i];
    }
  }

  lemma {:induction false} InAmountsBelow(inputs: seq<Input>)
    requires InSum(inputs) < UINT64_RANGE
    ensures SmallInputs(inputs)
  {
    if inputs != [] {
      InAmountsBelow(inputs[..|inputs| - 1]);
      assert forall i | 0 <= i < |inputs| - 1 :: inputs[..|inputs| - 1][i] == inputs[i];
    }
  }

  lemma {:induction false} AllInputsSmall(txs: seq<Transaction>)
    requires forall tx <- txs :: SmallInputs(tx.inputs)
    ensures SmallInputs(AllInputs(txs))
  {
    if txs != [] {
      var n := |txs| - 1;
      AllInputsSmall(txs[..n]);
      assert txs[n] in txs;
      var xs, ys := AllInputs(txs[..n]), txs[n].inputs;
      assert AllInputs(txs) == xs + ys;
    }
  }

  lemma {:induction false} AcceptedIsSmall(b: Block, p: Params, generated: nat, keyIsValid: KeyCheck)
    requires generated <= MONEY_SUPPLY && ParamsOk(p) && CoinbaseOnly(b)
    requires AcceptedMoney(b, p, generated, keyIsValid).Some?
    ensures forall tx <- AllTxs(b) :: SmallOutputs(tx.outputs)
    ensures SmallInputs(AllInputs(AllTxs(b)))
  {
    AcceptedMeans(b, p, generated, keyIsValid);
    hide AcceptedMoney, RewardOf, GoodOutputs, GoodInputs, SmallOutputs, SmallInputs, OutSum, InSum;
    forall tx | tx in AllTxs(b)
      ensures SmallOutputs(tx.outputs) && SmallInputs(tx.inputs)
    {
      if tx in b.transactions {
        var i :| 0 <= i < |b.transactions| && b.transactions[i] == tx;
        InAmountsBelow(tx.inputs);
      } else {
        CoinbaseIsSmall(tx.inputs);
      }
      AmountsBelow(tx.outputs);
    }
    AllInputsSmall(AllTxs(b));
  }

  lemma {:induction false} CoinbaseIsSmall(inputs: seq<Input>)
    requires |inputs| == 1 && inputs[0].CoinbaseInput?
    ensures SmallInputs(inputs)
  {
  }

  lemma {:induction false} SmallAppend(xs: seq<Input>, ys: seq<Input>)
    requires SmallInputs(xs) && SmallInputs(ys)
    ensures SmallInputs(xs + ys)
  {
  }

  /** What a chain put out beyond what it took in is what its database holds less what was spent. */
  lemma {:induction false} NetIsStacked(bs: seq<(Block, Params)>, keyIsValid: KeyCheck, generated: nat)
    requires AcceptedChain(bs, keyIsValid, generated)
    ensures ChainNet(bs) == Stacked(Replay(Blocks(bs)).ledger) - InSum(ChainInputs(Blocks(bs)))
    ensures SmallInputs(ChainInputs(Blocks(bs)))
  {
    hide Net, AcceptedMoney, SmallInputs, SmallOutputs, ExecTxs, CoinbaseOnly, AllTxs, OutTotal, InSum;
    if bs == [] {
      NothingStacked();
    } else {
      var rest, b := bs[..|bs| - 1], bs[|bs| - 1];
      var before: nat :| AcceptedChain(rest, keyIsValid, before) && AcceptedNext(b, keyIsValid, before, generated);
      NetIsStacked(rest, keyIsValid, before);
      AcceptedIsSmall(b.0, b.1, before, keyIsValid);
      OneBlockStacked(Blocks(rest), b.0);
      NetIsDifference(AllTxs(b.0));
      SmallAppend(ChainInputs(Blocks(rest)), AllInputs(AllTxs(b.0)));
      InSumAppend(ChainInputs(Blocks(rest)), AllInputs(AllTxs(b.0)));
    }
  }

  lemma {:induction false} NothingStacked()
    ensures Stacked(EMPTY) == 0 && InSum([]) == 0 && SmallInputs([])
  {
    TotalOne(UINT64_RANGE, a => |Stack(EMPTY, a)|, None);
  }

  lemma {:induction false} OneBlockStacked(bs: seq<Block>, b: Block)
    requires forall tx <- AllTxs(b) :: SmallOutputs(tx.outputs)
    ensures Stacked(Replay(bs + [b]).ledger) == Stacked(Replay(bs).ledger) + OutTotal(AllTxs(b))
    ensures ChainInputs(bs + [b]) == ChainInputs(bs) + AllInputs(AllTxs(b))
  {
    hide Stacked, ExecTxs, SmallOutputs, AllTxs;
    assert (bs + [b])[..|bs|] == bs;
    StackedGrows(Replay(bs).ledger, AllTxs(b), |bs|);
  }

  /** Along every accepted chain the outputs in the replayed database are worth, in 64 bits, what was generated and what
      was spent. */
  lemma {:induction false} ReplayConserves(bs: seq<(Block, Params)>, keyIsValid: KeyCheck, generated: nat)
    requires AcceptedChain(bs, keyIsValid, generated)
    ensures generated == (Stacked(Replay(Blocks(bs)).ledger) - InSum(ChainInputs(Blocks(bs)))) % UINT64_RANGE
  {
    hide Replay, Stacked, InSum, ChainInputs;
    ChainConserves(bs, keyIsValid, generated);
    NetIsStacked(bs, keyIsValid, generated);
  }

  /** If, besides, every block was applied, and a ring signature is valid only with the key image of one of its members,
      this holds without a wrap: nothing is created beside the emission, nothing is lost, and the supply is never
      exceeded. */
  lemma {:induction false} NothingIsCreated(bs: seq<(Block, Params)>, keyIsValid: KeyCheck, generated: nat,
                                            ringValid: RingCheck, owner: Owner)
    requires AcceptedChain(bs, keyIsValid, generated)
    requires AppliedChain(Blocks(bs), ringValid) && RingsHaveOwners(ringValid, owner)
    ensures Stacked(Replay(Blocks(bs)).ledger) == generated + InSum(ChainInputs(Blocks(bs)))
    ensures generated <= MONEY_SUPPLY
  {
    hide Replay, Stacked, InSum, ChainInputs, Verdict, RingsHaveOwners;
    ChainConserves(bs, keyIsValid, generated);
    NetIsStacked(bs, keyIsValid, generated);
    InputsWithinOutputs(Blocks(bs), ringValid, owner);
  }

  // ---- in the node ----

  /** The blocks of the main chain with the sizes their headers give. */
  ghost function Pairs(blocks: map<Hash, Block>, coins: map<Hash, Coins>, chain: seq<Hash>): (r: seq<(Block, Params)>)
    requires forall b <- chain :: b in blocks && b in coins
    ensures |r| == |chain|
  {
    if chain == [] then []
    else
      var last := chain[|chain| - 1];
      Pairs(blocks, coins, chain[..|chain| - 1]) + [(blocks[last], coins[last].params)]
  }

  lemma {:induction false} PairsAreBlocks(blocks: map<Hash, Block>, coins: map<Hash, Coins>, chain: seq<Hash>)
    requires forall b <- chain :: b in blocks && b in coins
    ensures Blocks(Pairs(blocks, coins, chain)) == BlocksOf(blocks, chain)
  {
    if chain != [] {
      PairsAreBlocks(blocks, coins, chain[..|chain| - 1]);
    }
  }

  /** The amounts of a main chain were accepted one block after the other. */
  lemma {:induction false} MainChainAccepted(headers: Headers, blocks: map<Hash, Block>, coins: map<Hash, Coins>,
                                             keyIsValid: KeyCheck, chain: seq<Hash>)
    requires MainChain(headers, chain) && MoneyOk(headers, blocks, coins, keyIsValid)
    requires forall b <- chain :: b in blocks && b in coins
    ensures AcceptedChain(Pairs(blocks, coins, chain), keyIsValid, coins[chain[|chain| - 1]].generated)
  {
    hide AcceptedNext, MoneyOk;
    var n := |chain| - 1;
    var rest, last := chain[..n], chain[n];
    var pairs := Pairs(blocks, coins, chain);
    assert pairs[..n] == Pairs(blocks, coins, rest);
    AcceptedAt(headers, blocks, coins, keyIsValid, last);
    if n == 0 {
      assert AcceptedChain(pairs[..n], keyIsValid, 0);
    } else {
      MainChainAccepted(headers, blocks, coins, keyIsValid, rest);
      assert headers[last].previous == rest[n - 1];
      assert AcceptedChain(pairs[..n], keyIsValid, coins[rest[n - 1]].generated);
    }
  }

  /** In every reachable state of the node, after any extensions and reorganizations: the outputs in its database are
      worth the coins that the header of its tip says were generated, and all that was spent. */
  lemma {:induction false} MainChainConserves(node: BlockChain, owner: Owner)
    requires node.Valid() && RingsHaveOwners(node.ringValid, owner)
    ensures (forall b <- node.chain :: b in node.blocks) && node.tip.bid in node.coins
    ensures var generated := node.coins[node.tip.bid].generated;
            && Stacked(node.state.ledger) == generated + InSum(ChainInputs(BlocksOf(node.blocks, node.chain)))
            && generated <= MONEY_SUPPLY
  {
    hide Replay, Stacked, InSum, ChainInputs, Verdict, RingsHaveOwners, AcceptedChain, AppliedChain, OneMemberRings,
        Good,
      AcceptedNext, Tree, CoinbaseOnly;
    var pairs := Pairs(node.blocks, node.coins, node.chain);
    PairsAreBlocks(node.blocks, node.coins, node.chain);
    MainChainAccepted(node.headers, node.blocks, node.coins, node.keyIsValid, node.chain);
    NothingIsCreated(pairs, node.keyIsValid, node.coins[node.tip.bid].generated, node.ringValid, owner);
  }
}
