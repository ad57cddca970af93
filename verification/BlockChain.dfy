/** The block chain: blocks and headers by hash, the main chain, the database that follows it, and the three ways
    a new block is taken in: on top of the tip, on a side branch, or by reorganizing to its branch. */
module BlockChains {
  import opened ChainTypes
  import opened Ledgers
  import opened Execution
  import opened Overlay
  import opened Spending
  import opened DeltaStates
  import opened StateDbs
  import opened BlockTree
  import opened Replaying
  import opened Currencies
  import opened Moneys

  datatype RedoResult = Applied | Rejected | Fatal // Fatal: an exception ends the process

  datatype Action = BroadcastAll | Nothing | Ban | Exit

  /** The verdict of the standalone consensus checks that are not part of this model, with the block's difficulty, and
      the version and sizes that the check of its amounts needs. */
  datatype Consensus = Broken | Meets(difficulty: nat, params: Params)

  /** What the header of a stored block says about money: the sizes its reward depends on, and all coins generated up to
      it. */
  datatype Coins = Coins(params: Params, generated: nat)

  // ---- what redoing a block answers ----

  ghost predicate NewHashes(txs: map<Hash, (Height, nat)>, b: Block) {
    DistinctHashes(AllTxs(b)) && forall tx <- AllTxs(b) :: tx.hash !in txs
  }

  ghost function Verdict(db: Db, b: Block, h: Height, ringValid: RingCheck): RedoResult {
    match BlockArgs(db.ledger, b.transactions, h, b.timestamp)
    case None => Rejected
    case Some(args) =>
      if !DistinctKeyImages(AllInputs(AllTxs(b))) then Fatal
      else if !ArgsValid(args, ringValid) then Rejected
      else if !NewHashes(db.txs, b) then Fatal
      else Applied
  }

  lemma {:induction false} DistinctAppend(xs: seq<Input>, ys: seq<Input>, h: Height)
    ensures DistinctKeyImages(xs + ys) <==>
            DistinctKeyImages(xs) && DistinctKeyImages(ys) && KeyImagesOf(ys, h).Keys !! KeyImagesOf(xs, h).Keys
  {
    var all := xs + ys;
    assert forall i | 0 <= i < |xs| :: all[i] == xs[i];
    assert forall i | 0 <= i < |ys| :: all[|xs| + i] == ys[i];
    if DistinctKeyImages(all) {
      forall ki | ki in KeyImagesOf(ys, h)
        ensures ki !in KeyImagesOf(xs, h)
      {
        KeyImagesMember(xs, h, ki);
        KeyImagesMember(ys, h, ki);
        var j :| 0 <= j < |ys| && ys[j].KeyInput? && ys[j].keyImage == ki;
        assert all[|xs| + j].keyImage == ki;
      }
    } else if DistinctKeyImages(xs) && DistinctKeyImages(ys) {
      var i, j :| 0 <= i < j < |all| && all[i].KeyInput? && all[j].KeyInput? && all[i].keyImage == all[j].keyImage;
      KeyImagesMember(xs, h, all[i].keyImage);
      KeyImagesMember(ys, h, all[i].keyImage);
      assert i < |xs| <= j;
      assert ys[j - |xs|] == all[j];
    }
  }

  lemma {:induction false} AllInputsSplit(txs: seq<Transaction>, n: nat)
    requires n <= |txs|
    ensures exists rest :: AllInputs(txs) == AllInputs(txs[..n]) + rest
    decreases |txs|
  {
    if n == |txs| {
      assert txs[..n] == txs;
      assert AllInputs(txs) == AllInputs(txs[..n]) + [];
    } else {
      var m := |txs| - 1;
      AllInputsSplit(txs[..m], n);
      assert txs[..m][..n] == txs[..n];
      var rest :| AllInputs(txs[..m]) == AllInputs(txs[..n]) + rest;
      assert AllInputs(txs) == AllInputs(txs[..n]) + (rest + txs[m].inputs);
    }
  }

  lemma {:induction false} NotDistinctSoFar(txs: seq<Transaction>, n: nat, h: Height)
    requires n <= |txs| && !DistinctKeyImages(AllInputs(txs[..n]))
    ensures !DistinctKeyImages(AllInputs(txs))
  {
    AllInputsSplit(txs, n);
    var rest :| AllInputs(txs) == AllInputs(txs[..n]) + rest;
    DistinctAppend(AllInputs(txs[..n]), rest, h);
  }

  ghost predicate NewSoFar(txs: map<Hash, (Height, nat)>, all: seq<Transaction>, n: nat)
    requires n <= |all|
  {
    DistinctHashes(all[..n]) && forall i | 0 <= i < n :: all[i].hash !in txs
  }

  lemma {:induction false} NewSoFarStep(txs: map<Hash, (Height, nat)>, all: seq<Transaction>, n: nat, h: Height)
    requires n < |all| && NewSoFar(txs, all, n)
    ensures Positions(all[..n + 1], h) == Positions(all[..n], h)[all[n].hash := (h, n)]
    ensures all[n].hash !in txs + Positions(all[..n], h) ==> NewSoFar(txs, all, n + 1)
    ensures all[n].hash in txs + Positions(all[..n], h) ==>
              !(DistinctHashes(all) && forall tx <- all :: tx.hash !in txs)
  {
    assert all[..n + 1][..n] == all[..n];
    PositionsKeys(all[..n], h, all[n].hash);
    if all[n].hash in txs + Positions(all[..n], h) {
      if all[n].hash in txs {
        assert all[n] in all;
      } else {
        var i :| 0 <= i < n && all[..n][i].hash == all[n].hash;
        assert all[i].hash == all[n].hash;
      }
    } else {
      var longer := all[..n + 1];
      forall i, j | 0 <= i < j < |longer|
        ensures longer[i].hash != longer[j].hash
      {
        assert all[..n][i] == longer[i];
        assert j < n ==> all[..n][j] == longer[j];
      }
    }
  }

  lemma {:induction false} AllNew(txs: map<Hash, (Height, nat)>, all: seq<Transaction>)
    requires NewSoFar(txs, all, |all|)
    ensures DistinctHashes(all) && forall tx <- all :: tx.hash !in txs
  {
    assert all[..|all|] == all;
  }

  // ---- the main chain as a branch of the tree ----

  function BlocksOf(blocks: map<Hash, Block>, chain: seq<Hash>): (r: seq<Block>)
    requires forall b <- chain :: b in blocks
    ensures |r| == |chain|
  {
    if chain == [] then [] else BlocksOf(blocks, chain[..|chain| - 1]) + [blocks[chain[|chain| - 1]]]
  }

  lemma {:induction false} BlocksOfGrows(blocks: map<Hash, Block>, more: map<Hash, Block>, chain: seq<Hash>)
    requires forall b <- chain :: b in blocks && b in more && more[b] == blocks[b]
    ensures BlocksOf(more, chain) == BlocksOf(blocks, chain)
  {
    if chain != [] {
      BlocksOfGrows(blocks, more, chain[..|chain| - 1]);
    }
  }

  lemma {:induction false} BlocksOfMember(blocks: map<Hash, Block>, chain: seq<Hash>, b: Block)
    requires (forall c <- chain :: c in blocks) && b in BlocksOf(blocks, chain)
    ensures exists c <- chain :: blocks[c] == b
  {
    var n := |chain| - 1;
    if b in BlocksOf(blocks, chain[..n]) {
      BlocksOfMember(blocks, chain[..n], b);
      var c :| c in chain[..n] && blocks[c] == b;
      assert c in chain;
    } else {
      assert b == blocks[chain[n]];
    }
  }

  /** Every stored block has a header that agrees with it, and passed the checks that come before execution. */
  ghost predicate Stored(headers: Headers, blocks: map<Hash, Block>, genesis: Hash) {
    && Tree(headers, genesis)
    && headers.Keys == blocks.Keys
    && forall b <- blocks ::
         && blocks[b].bid == b && CoinbaseOnly(blocks[b])
         && headers[b].previous == blocks[b].previous && headers[b].timestamp == blocks[b].timestamp
  }

  ghost predicate MainChain(headers: Headers, chain: seq<Hash>) {
    && chain != []
    && (forall i | 0 <= i < |chain| :: chain[i] in headers && headers[chain[i]].height == i)
    && (forall i | 0 < i < |chain| :: headers[chain[i]].previous == chain[i - 1])
  }

  datatype Tip = Tip(bid: Hash, height: Height, cumulativeDifficulty: nat)

  ghost predicate AtTip(headers: Headers, chain: seq<Hash>, tip: Tip)
    requires MainChain(headers, chain)
  {
    && tip.height == |chain| - 1
    && tip.bid == chain[tip.height]
    && tip.cumulativeDifficulty == headers[tip.bid].cumulativeDifficulty
  }

  /** The stored blocks, the main chain among them and the tip fit together. */
  ghost predicate WellFormed(headers: Headers, blocks: map<Hash, Block>, genesis: Hash, chain: seq<Hash>, tip: Tip) {
    Stored(headers, blocks, genesis) && MainChain(headers, chain) && AtTip(headers, chain, tip)
  }

  /** The database is what replaying the main chain from nothing gives. */
  ghost predicate Follows(db: Db, blocks: map<Hash, Block>, chain: seq<Hash>, owner: Owner) {
    && (forall b <- chain :: b in blocks)
    && db == Replay(BlocksOf(blocks, chain))
    && Good(BlocksOf(blocks, chain), owner)
  }

  lemma {:induction false} MainChainIsBranch(headers: Headers, genesis: Hash, chain: seq<Hash>, n: nat, x: nat)
    requires Tree(headers, genesis) && MainChain(headers, chain) && x <= n < |chain|
    ensures At(headers, genesis, chain[n], x) == chain[x]
  {
    if x < n {
      MainChainIsBranch(headers, genesis, chain, n - 1, x);
    }
  }

  /** The amounts of every stored block were accepted, and its coins follow from those of the block below it. */
  ghost predicate MoneyOk(headers: Headers, blocks: map<Hash, Block>, coins: map<Hash, Coins>, keyIsValid: KeyCheck) {
    && coins.Keys == headers.Keys == blocks.Keys
    && forall b {:trigger coins[b]} | b in coins :: MoneyOkAt(headers, blocks, coins, keyIsValid, b)
  }

  ghost predicate MoneyOkAt(headers: Headers, blocks: map<Hash, Block>, coins: map<Hash, Coins>, keyIsValid: KeyCheck,
                            b: Hash)
    requires coins.Keys == headers.Keys == blocks.Keys && b in coins
  {
    && coins[b].generated <= MONEY_SUPPLY
    && (headers[b].height > 0 ==> headers[b].previous in coins)
    && var before := if headers[b].height == 0 then 0 else coins[headers[b].previous].generated;
       AcceptedNext((blocks[b], coins[b].params), keyIsValid, before, coins[b].generated)
  }

  lemma {:induction false} AcceptedAt(headers: Headers, blocks: map<Hash, Block>, coins: map<Hash, Coins>,
                                      keyIsValid: KeyCheck, b: Hash)
    requires MoneyOk(headers, blocks, coins, keyIsValid) && b in headers
    ensures b in coins && b in blocks && coins.Keys == headers.Keys == blocks.Keys
    ensures MoneyOkAt(headers, blocks, coins, keyIsValid, b)
  {
    assert coins[b] == coins[b];
  }

  lemma {:induction false} StoreMoney(headers: Headers, blocks: map<Hash, Block>, coins: map<Hash, Coins>,
                                      keyIsValid: KeyCheck, b: Block,
                   header: Header, c: Coins)
    requires MoneyOk(headers, blocks, coins, keyIsValid) && b.bid !in headers && b.previous in headers
    requires header.height > 0 && header.previous == b.previous
    requires AcceptedNext((b, c.params), keyIsValid, coins[b.previous].generated, c.generated)
    ensures MoneyOk(headers[b.bid := header], blocks[b.bid := b], coins[b.bid := c], keyIsValid)
  {
    hide AcceptedMoney, CoinbaseOnly;
    var headers', blocks', coins' := headers[b.bid := header], blocks[b.bid := b], coins[b.bid := c];
    forall x | x in coins'
      ensures MoneyOkAt(headers', blocks', coins', keyIsValid, x)
    {
      assert x != b.bid ==> MoneyOkAt(headers, blocks, coins, keyIsValid, x) && coins[x] == coins'[x];
      AcceptedFits(b, c.params, coins[b.previous].generated, keyIsValid);
    }
  }

  lemma {:induction false} AcceptedFits(b: Block, p: Params, generated: nat, keyIsValid: KeyCheck)
    requires generated <= MONEY_SUPPLY && ParamsOk(p)
    ensures var r := AcceptedMoney(b, p, generated, keyIsValid); r.Some? ==> r.value <= MONEY_SUPPLY
  {
    hide RewardOf, SemanticallyValid, GoodOutputs, TxFee, FeeSum, OutSum;
  }

  lemma {:induction false} GenesisMoney(g: Block, header: Header, c: Coins, keyIsValid: KeyCheck)
    requires header.height == 0 && AcceptedNext((g, c.params), keyIsValid, 0, c.generated)
    ensures MoneyOk(map[g.bid := header], map[g.bid := g], map[g.bid := c], keyIsValid)
  {
    AcceptedFits(g, c.params, 0, keyIsValid);
    hide AcceptedMoney, CoinbaseOnly;
  }

  /** Every block of a chain was applied to the replay of those before it. */
  ghost predicate AppliedChain(bs: seq<Block>, ringValid: RingCheck) {
    bs != [] ==>
      var n := |bs| - 1;
      AppliedChain(bs[..n], ringValid) && CoinbaseOnly(bs[n]) && Verdict(Replay(bs[..n]), bs[n], n, ringValid).Applied?
  }

  ghost predicate MainChainApplied(blocks: map<Hash, Block>, chain: seq<Hash>, ringValid: RingCheck) {
    (forall b <- chain :: b in blocks) && AppliedChain(BlocksOf(blocks, chain), ringValid)
  }

  lemma {:induction false} OneMoreApplied(blocks: map<Hash, Block>, chain: seq<Hash>, ringValid: RingCheck, bid: Hash)
    requires MainChainApplied(blocks, chain, ringValid) && bid in blocks && CoinbaseOnly(blocks[bid])
    requires Verdict(Replay(BlocksOf(blocks, chain)), blocks[bid], |chain|, ringValid).Applied?
    ensures MainChainApplied(blocks, chain + [bid], ringValid)
  {
    hide Verdict, Replay, CoinbaseOnly, AppliedChain;
    var longer := chain + [bid];
    assert longer[..|chain|] == chain;
    assert BlocksOf(blocks, longer) == BlocksOf(blocks, chain) + [blocks[bid]];
    AppliedPlusOne(BlocksOf(blocks, chain), blocks[bid], ringValid);
  }

  lemma {:induction false} AppliedPlusOne(bs: seq<Block>, b: Block, ringValid: RingCheck)
    requires AppliedChain(bs, ringValid) && CoinbaseOnly(b) && Verdict(Replay(bs), b, |bs|, ringValid).Applied?
    ensures AppliedChain(bs + [b], ringValid)
  {
    hide Verdict, Replay, CoinbaseOnly;
    assert (bs + [b])[..|bs|] == bs;
  }

  lemma {:induction false} OneLessApplied(blocks: map<Hash, Block>, chain: seq<Hash>, ringValid: RingCheck, n: nat)
    requires MainChainApplied(blocks, chain, ringValid) && |chain| == n + 1
    ensures MainChainApplied(blocks, chain[..n], ringValid)
  {
    hide Verdict, Replay, CoinbaseOnly;
    assert BlocksOf(blocks, chain)[..n] == BlocksOf(blocks, chain[..n]);
  }

  lemma {:induction false} StoreApplied(blocks: map<Hash, Block>, chain: seq<Hash>, ringValid: RingCheck, b: Block)
    requires MainChainApplied(blocks, chain, ringValid) && b.bid !in blocks
    ensures MainChainApplied(blocks[b.bid := b], chain, ringValid)
  {
    BlocksOfGrows(blocks, blocks[b.bid := b], chain);
  }

  // ---- how the main chain moves ----

  lemma {:induction false} RetreatWellFormed(headers: Headers, blocks: map<Hash, Block>, genesis: Hash,
                                             chain: seq<Hash>, tip: Tip)
    requires WellFormed(headers, blocks, genesis, chain, tip) && tip.height > 0
    ensures tip.bid in blocks && tip.bid in headers && blocks[tip.bid].previous == headers[tip.bid].previous
    ensures blocks[tip.bid].previous in headers && |chain| == tip.height + 1
    ensures var bid := blocks[tip.bid].previous;
            WellFormed(headers, blocks, genesis, chain[..tip.height],
                       Tip(bid, tip.height - 1, headers[bid].cumulativeDifficulty))
  {
    assert chain[tip.height - 1] == headers[tip.bid].previous;
  }

  /** Undoing the last block of a followed main chain succeeds and follows the shorter chain. */
  lemma {:induction false} RetreatFollows(db: Db, blocks: map<Hash, Block>, chain: seq<Hash>, owner: Owner)
    requires Follows(db, blocks, chain, owner) && |chain| > 0
    ensures var n := |chain| - 1;
            && UndoDb(db, blocks[chain[n]], n).Some?
            && Follows(UndoDb(db, blocks[chain[n]], n).value, blocks, chain[..n], owner)
  {
    hide UndoDb, RedoDb;
    var n := |chain| - 1;
    var bs := BlocksOf(blocks, chain);
    assert bs[..n] == BlocksOf(blocks, chain[..n]);
    ReplayNormal(bs[..n]);
    UndoRedo(Replay(bs[..n]), blocks[chain[n]], n, owner);
  }

  /** A stored block that continues the tip meets everything that executing it takes for granted. */
  lemma {:induction false} AdvanceReady(db: Db, headers: Headers, blocks: map<Hash, Block>, genesis: Hash,
                                        chain: seq<Hash>, tip: Tip, owner: Owner, bid: Hash)
    requires WellFormed(headers, blocks, genesis, chain, tip) && Follows(db, blocks, chain, owner)
    requires bid in headers && headers[bid].height == tip.height + 1
    ensures bid in blocks && blocks[bid].bid == bid && CoinbaseOnly(blocks[bid]) && |chain| == tip.height + 1
    ensures bid !in db.indices && (blocks[bid].timestamp, |chain|) !in db.times
    ensures (forall b <- chain :: b in blocks) && db == Replay(BlocksOf(blocks, chain))
            && Good(BlocksOf(blocks, chain), owner)
  {
    hide Tree, Replay, Good;
    var bs := BlocksOf(blocks, chain);
    ReplayIndexes(bs, bid, (blocks[bid].timestamp, |chain|));
    if c :| c in bs && c.bid == bid {
      BlocksOfMember(blocks, chain, c);
    }
  }

  lemma {:induction false} AdvanceFollows(db: Db, headers: Headers, blocks: map<Hash, Block>, genesis: Hash,
                                          chain: seq<Hash>, tip: Tip, owner: Owner, bid: Hash)
    requires WellFormed(headers, blocks, genesis, chain, tip)
    requires bid in headers && headers[bid].height == tip.height + 1 && headers[bid].previous == tip.bid
    requires (forall b <- chain :: b in blocks) && bid in blocks
    requires db == Replay(BlocksOf(blocks, chain) + [blocks[bid]])
             && Good(BlocksOf(blocks, chain) + [blocks[bid]], owner)
    ensures Follows(db, blocks, chain + [bid], owner)
    ensures WellFormed(headers, blocks, genesis, chain + [bid],
            Tip(bid, tip.height + 1, headers[bid].cumulativeDifficulty))
  {
    AdvanceWellFormed(headers, blocks, genesis, chain, tip, bid);
    hide WellFormed, Replay, Good;
    var longer := chain + [bid];
    assert longer[..|longer| - 1] == chain;
    assert BlocksOf(blocks, longer) == BlocksOf(blocks, chain) + [blocks[bid]];
  }

  lemma {:induction false} AdvanceWellFormed(headers: Headers, blocks: map<Hash, Block>, genesis: Hash,
                                             chain: seq<Hash>, tip: Tip, bid: Hash)
    requires WellFormed(headers, blocks, genesis, chain, tip)
    requires bid in headers && headers[bid].height == tip.height + 1 && headers[bid].previous == tip.bid
    ensures WellFormed(headers, blocks, genesis, chain + [bid],
            Tip(bid, tip.height + 1, headers[bid].cumulativeDifficulty))
  {
    hide Tree, CoinbaseOnly;
  }

  // ---- what happens along a branch ----

  /** What redoing the block of the branch of b at height x answers, on the replay of the blocks below it. */
  ghost function BranchVerdict(headers: Headers, blocks: map<Hash, Block>, genesis: Hash, ringValid: RingCheck, b: Hash,
                               x: Height): RedoResult
    requires Tree(headers, genesis) && headers.Keys == blocks.Keys && b in headers && x <= headers[b].height
  {
    Verdict(Replay(BlocksOf(blocks, Branch(headers, genesis, b, x))), blocks[At(headers, genesis, b, x)], x, ringValid)
  }

  /** How redoing the branch of b from height x on ends, and the height it reaches. */
  ghost function BranchEnd(headers: Headers, blocks: map<Hash, Block>, genesis: Hash, ringValid: RingCheck, b: Hash,
                           x: Height): (e: (RedoResult, int))
    requires Tree(headers, genesis) && headers.Keys == blocks.Keys && b in headers && x <= headers[b].height + 1
    ensures x - 1 <= e.1 <= headers[b].height
    decreases headers[b].height + 1 - x
  {
    if x == headers[b].height + 1 then (Applied, x - 1)
    else
      var v := BranchVerdict(headers, blocks, genesis, ringValid, b, x);
      if v.Applied? then BranchEnd(headers, blocks, genesis, ringValid, b, x + 1) else (v, x - 1)
  }

  /** The first block of the branch of b from height x on that cannot be applied is the one at height y. */
  ghost predicate StopsAt(headers: Headers, blocks: map<Hash, Block>, genesis: Hash, ringValid: RingCheck, b: Hash,
                          x: Height, y: Height)
    requires Tree(headers, genesis) && headers.Keys == blocks.Keys && b in headers
  {
    && x <= y <= headers[b].height && !BranchVerdict(headers, blocks, genesis, ringValid, b, y).Applied?
    && forall z: Height | x <= z < y :: BranchVerdict(headers, blocks, genesis, ringValid, b, z).Applied?
  }

  /** Redoing a branch ends with a verdict other than applied exactly when all blocks up to some height are applied and
      the one there gets that verdict; it ends well exactly when there is no such height. */
  lemma {:induction false} BranchEndMeaning(headers: Headers, blocks: map<Hash, Block>, genesis: Hash,
                                            ringValid: RingCheck, b: Hash, x: Height)
    requires Tree(headers, genesis) && headers.Keys == blocks.Keys && b in headers && x <= headers[b].height + 1
    ensures var e := BranchEnd(headers, blocks, genesis, ringValid, b, x);
            && (e.0.Applied? <==> forall y: Height :: !StopsAt(headers, blocks, genesis, ringValid, b, x, y))
            && (e.0.Applied? ==> e.1 == headers[b].height)
            && forall y: Height | StopsAt(headers, blocks, genesis, ringValid, b, x, y) ::
                 e == (BranchVerdict(headers, blocks, genesis, ringValid, b, y), y - 1)
    decreases headers[b].height + 1 - x
  {
    hide BranchVerdict, Tree;
    if x <= headers[b].height {
      if BranchVerdict(headers, blocks, genesis, ringValid, b, x).Applied? {
        var next := x + 1;
        BranchEndMeaning(headers, blocks, genesis, ringValid, b, next);
        forall y: Height
          ensures StopsAt(headers, blocks, genesis, ringValid, b, x, y) <==>
                  StopsAt(headers, blocks, genesis, ringValid, b, next, y)
        {
          AppliedPasses(headers, blocks, genesis, ringValid, b, x, y);
        }
        hide StopsAt;
        if y: Height :| StopsAt(headers, blocks, genesis, ringValid, b, next, y) {
          assert StopsAt(headers, blocks, genesis, ringValid, b, x, y);
        }
      } else {
        assert StopsAt(headers, blocks, genesis, ringValid, b, x, x);
      }
    }
  }

  lemma {:induction false} AppliedPasses(headers: Headers, blocks: map<Hash, Block>, genesis: Hash,
                                         ringValid: RingCheck, b: Hash, x: Height, y: Height)
    requires Tree(headers, genesis) && headers.Keys == blocks.Keys && b in headers && x <= headers[b].height
    requires BranchVerdict(headers, blocks, genesis, ringValid, b, x).Applied?
    ensures StopsAt(headers, blocks, genesis, ringValid, b, x, y) <==>
            StopsAt(headers, blocks, genesis, ringValid, b, x + 1, y)
  {
    hide BranchVerdict, Tree;
  }

  /** A main chain whose tip lies on the branch of b is the beginning of that branch. */
  lemma {:induction false} MainChainOfBranch(headers: Headers, blocks: map<Hash, Block>, genesis: Hash,
                                             chain: seq<Hash>, tip: Tip, b: Hash)
    requires WellFormed(headers, blocks, genesis, chain, tip) && Tree(headers, genesis)
    requires b in headers && tip.height <= headers[b].height && At(headers, genesis, b, tip.height) == tip.bid
    ensures chain == Branch(headers, genesis, b, tip.height + 1)
  {
    forall x: nat | x <= tip.height
      ensures chain[x] == At(headers, genesis, b, x)
    {
      MainChainIsBranch(headers, genesis, chain, tip.height, x);
      AtAt(headers, genesis, b, tip.height, x);
    }
  }

  /** What redoing the next block of a branch answers on the database of a main chain that is the beginning of it. */
  lemma {:induction false} NextVerdict(db: Db, headers: Headers, blocks: map<Hash, Block>, genesis: Hash,
                                       chain: seq<Hash>, tip: Tip, owner: Owner,
                    ringValid: RingCheck, b: Hash)
    requires WellFormed(headers, blocks, genesis, chain, tip) && Tree(headers, genesis) && headers.Keys == blocks.Keys
    requires Follows(db, blocks, chain, owner)
    requires b in headers && tip.height < headers[b].height && At(headers, genesis, b, tip.height) == tip.bid
    ensures Verdict(db, blocks[At(headers, genesis, b, tip.height + 1)], tip.height + 1, ringValid)
            == BranchVerdict(headers, blocks, genesis, ringValid, b, tip.height + 1)
  {
    hide WellFormed, Verdict, Replay, Good, Tree;
    MainChainOfBranch(headers, blocks, genesis, chain, tip, b);
  }

  /** On every database: a block of two transactions that spend what can be spent, with the same key image, is not
      refused. */
  lemma {:induction false} RepeatedKeyImageIsFatal(db: Db, b: Block, h: Height, i: Input, ringValid: RingCheck)
    requires CoinbaseOnly(b) && i.KeyInput? && ResolveInput(Base(db.ledger), i, h, b.timestamp).Keys?
    requires |b.transactions| == 2 && forall tx <- b.transactions :: tx.inputs == [i]
    ensures BlockArgs(db.ledger, b.transactions, h, b.timestamp).Some?
    ensures Verdict(db, b, h, ringValid) == Fatal
  {
    hide ResolveInput;
    var l, ts, txs := db.ledger, b.timestamp, b.transactions;
    assert txs[..1][..0] == [] && txs[..1][0] == txs[0] && txs[0] in txs && txs[1] in txs;
    forall tx | tx in txs
      ensures InputsArgs(l, tx, 1, h, ts).Some?
    {
      assert InputsArgs(l, tx, 0, h, ts) == Some([]);
    }
    assert BlockArgs(l, [], h, ts) == Some([]);
    assert BlockArgs(l, txs[..1], h, ts).Some?;
    assert BlockArgs(l, txs, h, ts).Some?;
    var all := AllTxs(b);
    assert all[..2] == [b.baseTransaction, txs[0]] && all[..2][..1] == [b.baseTransaction]
        && [b.baseTransaction][..0] == [];
    assert AllInputs([b.baseTransaction]) == b.baseTransaction.inputs;
    assert AllInputs(all[..2]) == b.baseTransaction.inputs + txs[0].inputs;
    var inputs := AllInputs(all);
    assert inputs == b.baseTransaction.inputs + txs[0].inputs + txs[1].inputs;
    assert inputs[1] == inputs[2] == i;
  }

  /** For instance, on every main chain that is long enough for the output of the genesis block to be unlocked, a block
      that spends it twice with a new key image. */
  lemma {:induction false} RepeatedKeyImageHappens(bs: seq<Block>, b: Block, a: Amount, key: PublicKey, ki: KeyImage,
                                                   ringValid: RingCheck)
    requires bs != [] && CoinbaseOnly(bs[0]) && bs[0].transactions == []
    requires bs[0].baseTransaction.unlockTime == 10 && bs[0].baseTransaction.outputs == [Output(a, key)]
    requires Unlocked(10, |bs|, b.timestamp)
    requires CoinbaseOnly(b) && |b.transactions| == 2 && forall tx <- b.transactions ::
             tx.inputs == [KeyInput(a, [0], ki)]
    ensures ki !in Replay(bs).ledger.keyImages ==> Verdict(Replay(bs), b, |bs|, ringValid) == Fatal
  {
    hide Replay, Verdict, Unlocked;
    if ki !in Replay(bs).ledger.keyImages {
      FirstOutputStays(bs, a, key);
      OneResolves(Replay(bs).ledger, a, ki, |bs|, b.timestamp);
      RepeatedKeyImageIsFatal(Replay(bs), b, |bs|, KeyInput(a, [0], ki), ringValid);
    }
  }

  lemma {:induction false} FirstOutputStays(bs: seq<Block>, a: Amount, key: PublicKey)
    requires bs != [] && CoinbaseOnly(bs[0]) && bs[0].transactions == []
    requires bs[0].baseTransaction.outputs == [Output(a, key)]
    ensures var s := Stack(Replay(bs).ledger, a);
            s != [] && s[0].unlockTime == bs[0].baseTransaction.unlockTime && s[0].key == key
  {
    var n := |bs| - 1;
    if n == 0 {
      assert bs == [bs[0]];
      OneOutput(bs[0], a, key);
    } else {
      FirstOutputStays(bs[..n], a, key);
      var l, txs := Replay(bs[..n]).ledger, AllTxs(bs[n]);
      TxsStackButSpent(l, txs, n, a);
      hide ExecTxs, AllTxs, CoinbaseOnly;
      var s, t := Stack(l, a), Stack(ExecTxs(l, txs, n), a);
      UnflaggedAt(s, 0);
      assert |t| == |Unflagged(t)| >= |s|;
      UnflaggedAt(t, 0);
      assert Replay(bs).ledger == ExecTxs(l, txs, n);
    }
  }

  lemma {:induction false} OneOutput(g: Block, a: Amount, key: PublicKey)
    requires CoinbaseOnly(g) && g.transactions == [] && g.baseTransaction.outputs == [Output(a, key)]
    ensures Stack(Replay([g]).ledger, a) == [Entry(g.baseTransaction.unlockTime, key, 0, false)]
  {
    var tx := g.baseTransaction;
    assert AllTxs(g) == [tx] && [tx][..0] == [] && [g][..0] == [];
    assert ExecTxs(EMPTY, [tx], 0) == ExecTx(EMPTY, tx, 0);
    TxStack(EMPTY, tx, 0, a);
    assert tx.inputs[..0] == [] && tx.outputs[..0] == [];
    assert OutputsOf(tx.unlockTime, tx.outputs, a) == [Pushed(tx.unlockTime, key)];
    assert [Pushed(tx.unlockTime, key)][..0] == [];
    assert Entries([Pushed(tx.unlockTime, key)], 0) == [Entry(tx.unlockTime, key, 0, false)];
  }

  lemma {:induction false} OneResolves(l: Ledger, a: Amount, ki: KeyImage, h: Height, ts: nat)
    requires ki !in l.keyImages && Stack(l, a) != [] && Unlocked(Stack(l, a)[0].unlockTime, h, ts)
    ensures ResolveInput(Base(l), KeyInput(a, [0], ki), h, ts).Keys?
  {
    assert [0][..0] == [];
    assert AbsoluteIndexes([0]) == [0];
    assert ResolveMembers(Base(l), a, [], h, ts) == Keys([]);
  }

  /** Storing a new block beside the main chain changes nothing about it. */
  lemma {:induction false} StoreFollows(db: Db, blocks: map<Hash, Block>, chain: seq<Hash>, owner: Owner, b: Block)
    requires Follows(db, blocks, chain, owner) && b.bid !in blocks
    ensures Follows(db, blocks[b.bid := b], chain, owner)
  {
    hide Replay, Good;
    BlocksOfGrows(blocks, blocks[b.bid := b], chain);
  }

  lemma {:induction false} StoreWellFormed(headers: Headers, blocks: map<Hash, Block>, genesis: Hash, chain: seq<Hash>,
                                           tip: Tip, b: Block, header: Header)
    requires WellFormed(headers, blocks, genesis, chain, tip)
    requires b.bid !in headers && b.previous in headers && CoinbaseOnly(b)
    requires header.hash == b.bid && header.previous == b.previous && header.timestamp == b.timestamp
    requires header.height == headers[b.previous].height + 1
    ensures WellFormed(headers[b.bid := header], blocks[b.bid := b], genesis, chain, tip)
  {
    hide CoinbaseOnly;
    StoreKeepsTree(headers, genesis, header);
    hide Tree;
  }

  lemma {:induction false} StoreKeepsTree(headers: Headers, genesis: Hash, header: Header)
    requires Tree(headers, genesis) && header.hash !in headers && header.previous in headers
    requires header.height == headers[header.previous].height + 1
    ensures Tree(headers[header.hash := header], genesis)
  {
    var after := headers[header.hash := header];
    forall b | b in after
      ensures after[b].hash == b && (after[b].height == 0 ==> b == genesis)
      ensures after[b].height > 0 ==>
              after[b].previous in after && after[after[b].previous].height + 1 == after[b].height
    {
      assert b != header.hash ==> headers[b].previous in after || headers[b].height == 0;
    }
  }

  lemma {:induction false} TipIsStored(headers: Headers, blocks: map<Hash, Block>, genesis: Hash, chain: seq<Hash>,
                                       tip: Tip)
    requires WellFormed(headers, blocks, genesis, chain, tip)
    ensures Tree(headers, genesis) && headers.Keys == blocks.Keys
    ensures tip.bid in headers && headers[tip.bid].height == tip.height
    ensures tip.cumulativeDifficulty == headers[tip.bid].cumulativeDifficulty && |chain| == tip.height + 1
  {
  }

  lemma {:induction false} TipIsLast(headers: Headers, blocks: map<Hash, Block>, genesis: Hash, chain: seq<Hash>,
                                     tip: Tip)
    requires WellFormed(headers, blocks, genesis, chain, tip)
    ensures |chain| == tip.height + 1 && chain[tip.height] == tip.bid
  {
  }

  lemma {:induction false} OneBelow(headers: Headers, genesis: Hash, id: Hash, x: Height)
    requires Tree(headers, genesis) && id in headers && x <= headers[id].height
    ensures x == headers[id].height ==> At(headers, genesis, id, x) == id
    ensures x < headers[id].height ==>
              && headers[id].previous in headers && headers[headers[id].previous].height + 1 == headers[id].height
              && At(headers, genesis, headers[id].previous, x) == At(headers, genesis, id, x)
  {
  }

  lemma {:induction false} TipIsAncestor(headers: Headers, genesis: Hash, id: Hash, x: Height)
    requires Tree(headers, genesis) && id in headers && x <= headers[id].height
    requires At(headers, genesis, id, x) == id
    ensures x == headers[id].height
  {
  }

  class BlockChain {
    const genesis: Hash
    const ringValid: RingCheck
    const keyIsValid: KeyCheck
    ghost const owner: Owner
    const state: StateDb
    var blocks: map<Hash, Block>
    var headers: Headers
    var coins: map<Hash, Coins> // the part of the headers that is about money
    var chain: seq<Hash> // main chain hashes by height
    var tip: Tip
    var blockIndices: map<Hash, seq<seq<nat>>>
    var times: set<(nat, Height)>
    var txs: map<Hash, (Height, nat)>

    ghost function CurrentDb(): Db
      reads this, state
    {
      Db(state.ledger, blockIndices, times, txs)
    }

    ghost predicate Valid()
      reads this, state
    {
      && OneMemberRings(ringValid, owner)
      && state.Valid()
      && WellFormed(headers, blocks, genesis, chain, tip)
      && Follows(CurrentDb(), blocks, chain, owner)
      && MainChainApplied(blocks, chain, ringValid)
      && MoneyOk(headers, blocks, coins, keyIsValid)
    }

    // ---- redo ----

    method StartWork(b: Block, h: Height) returns (args: Option<seq<RingArg>>)
      requires state.Valid()
      ensures args == BlockArgs(state.ledger, b.transactions, h, b.timestamp)
    {
      var l := state.Snapshot();
      var all := [];
      var k := 0;
      while k < |b.transactions|
        invariant k <= |b.transactions|
        invariant BlockArgs(l, b.transactions[..k], h, b.timestamp) == Some(all)
      {
        var tx := b.transactions[k];
        assert b.transactions[..k + 1][..k] == b.transactions[..k];
        var more := InputsArgs(l, tx, |tx.inputs|, h, b.timestamp);
        if more.None? {
          NoArgsSoFar(l, b.transactions, k + 1, h, b.timestamp);
          return None;
        }
        all := all + more.value;
        k := k + 1;
      }
      assert b.transactions[..k] == b.transactions;
      return Some(all);
    }

    /** Executes all transactions of a block in one overlay. */
    method CollectBlock(b: Block, delta: DeltaState) returns (ok: bool, indices: seq<seq<nat>>)
      requires state.Valid()
      requires delta.Valid() && delta.Content() == EMPTY_DELTA && delta.parent == Base(state.ledger)
      modifies delta
      ensures ok == DistinctKeyImages(AllInputs(AllTxs(b)))
      ensures ok ==> delta.Valid() && delta.Content() == TxsDelta(AllTxs(b), delta.blockHeight)
      ensures ok ==> indices == BlockIndices(state.ledger, AllTxs(b), delta.blockHeight)
    {
      var all := AllTxs(b);
      var h := delta.blockHeight;
      indices := [];
      var k := 0;
      while k < |all|
        invariant k <= |all| && delta.Valid()
        invariant delta.Content() == TxsDelta(all[..k], h)
        invariant DistinctKeyImages(AllInputs(all[..k]))
        invariant indices == BlockIndices(state.ledger, all[..k], h)
      {
        assert all[..k + 1][..k] == all[..k];
        TxsDeltaContent(all[..k], h, 0);
        DistinctAppend(AllInputs(all[..k]), all[k].inputs, h);
        var outcome, txIndices := RedoTransaction(all[k], delta, false, ringValid);
        if !outcome.Redone? {
          NotDistinctSoFar(all, k + 1, h);
          return false, [];
        }
        indices := indices + [txIndices];
        k := k + 1;
      }
      assert all[..k] == all;
      return true, indices;
    }

    /** The answer of the ring checker for its batch. */
    method CheckSignatures(args: seq<RingArg>) returns (valid: bool)
      ensures valid == ArgsValid(args, ringValid)
    {
      valid := forall i | 0 <= i < |args| :: ringValid(args[i].tx, args[i].input, args[i].keys);
    }

    method IndexTransactions(b: Block, h: Height) returns (ok: bool)
      modifies this`txs
      ensures ok == NewHashes(old(txs), b)
      ensures ok ==> txs == old(txs) + Positions(AllTxs(b), h)
    {
      var all := AllTxs(b);
      assert NewSoFar(old(txs), all, 0);
      hide NewSoFar, DistinctHashes;
      var k := 0;
      while k < |all|
        invariant k <= |all|
        invariant txs == old(txs) + Positions(all[..k], h)
        invariant NewSoFar(old(txs), all, k)
      {
        NewSoFarStep(old(txs), all, k, h);
        if all[k].hash in txs {
          return false;
        }
        txs := txs[all[k].hash := (h, k)];
        k := k + 1;
      }
      assert all[..k] == all;
      AllNew(old(txs), all);
      return true;
    }

    /** Executes a block on top of the database that the blocks bs have left. Rejected means nothing has changed. */
    method RedoBlock(b: Block, h: Height, ghost bs: seq<Block>) returns (r: RedoResult)
      requires OneMemberRings(ringValid, owner) && state.Valid()
      requires CurrentDb() == Replay(bs) && Good(bs, owner) && h == |bs|
      requires CoinbaseOnly(b) && b.bid !in blockIndices && (b.timestamp, h) !in times
      modifies this`blockIndices, this`times, this`txs, state
      ensures r == Verdict(old(CurrentDb()), b, h, ringValid)
      ensures r != Fatal ==> state.Valid()
      ensures r.Applied? ==> CurrentDb() == Replay(bs + [b]) && Good(bs + [b], owner)
      ensures r.Rejected? ==> CurrentDb() == old(CurrentDb())
    {
      hide OneMemberRings, Replaying.SignaturesValid, Fresh, NamedByOwner, SpentByOwner, Replay, Good, Executable;
      hide StateDb.Valid, ArgsValid, DistinctKeyImages, NewHashes, BlockIndices, TxsDelta, ApplyTo, BlockArgs;
      var args := StartWork(b, h);
      if args.None? {
        return Rejected;
      }
      var snapshot := state.Snapshot();
      var delta := new DeltaState(h, b.timestamp, Base(snapshot));
      var ok, indices := CollectBlock(b, delta);
      if !ok {
        return Fatal;
      }
      BlockArgsMeaning(state.ledger, b.transactions, h, b.timestamp, ringValid);
      var valid := CheckSignatures(args.value);
      if !valid {
        return Rejected;
      }
      Accepted(bs, b, h, ringValid, owner);
      ok := state.ApplyDelta(delta);
      blockIndices := blockIndices[b.bid := indices];
      times := times + {(b.timestamp, h)};
      ok := IndexTransactions(b, h);
      r := if ok then Applied else Fatal;
      if ok {
        Extended(bs, b, owner);
      }
    }

    // ---- undo ----

    method DeleteTransactions(b: Block) returns (ok: bool)
      modifies this`txs
      ensures ok == DeletePositions(old(txs), AllTxs(b)).Some?
      ensures ok ==> txs == DeletePositions(old(txs), AllTxs(b)).value
    {
      var all := AllTxs(b);
      var k := 0;
      while k < |all|
        invariant k <= |all|
        invariant DeletePositions(old(txs), all) == DeletePositions(txs, all[k..])
      {
        if all[k].hash !in txs {
          return false;
        }
        txs := txs - {all[k].hash};
        k := k + 1;
      }
      return true;
    }

    /** Takes a block back, last transaction first. False is an invariant firing or a database key missing. */
    method UndoBlock(b: Block, h: Height) returns (ok: bool)
      requires state.Valid()
      modifies this`blockIndices, this`times, this`txs, state
      ensures ok == UndoDb(old(CurrentDb()), b, h).Some?
      ensures ok ==> state.Valid() && CurrentDb() == UndoDb(old(CurrentDb()), b, h).value
    {
      ghost var all, l := AllTxs(b), state.ledger;
      var k := |b.transactions|;
      assert all[..k + 1] == all;
      while k > 0
        invariant 0 <= k <= |b.transactions|
        invariant state.Valid() && UndoTxs(l, all) == UndoTxs(state.ledger, all[..k + 1])
        invariant blockIndices == old(blockIndices) && times == old(times) && txs == old(txs)
      {
        assert all[..k + 1][..k] == all[..k] && all[k] == b.transactions[k - 1];
        ok := state.UndoTransaction(b.transactions[k - 1]);
        if !ok {
          return;
        }
        k := k - 1;
      }
      assert all[..1] == [b.baseTransaction] && all[..1][..0] == [];
      ok := state.UndoTransaction(b.baseTransaction);
      if !ok {
        return;
      }
      assert UndoTxs(l, all) == Some(state.ledger);
      if b.bid !in blockIndices || (b.timestamp, h) !in times {
        return false;
      }
      blockIndices := blockIndices - {b.bid};
      times := times - {(b.timestamp, h)};
      ok := DeleteTransactions(b);
    }

    // ---- moving the tip ----

    /** Adds a block that continues the tip to the main chain, if it can be executed. */
    method Advance(b: Block, info: Header) returns (r: RedoResult)
      requires info.hash in headers && headers[info.hash] == info && info.hash in blocks && blocks[info.hash] == b
      requires info.height == tip.height + 1 && info.previous == tip.bid
      requires Valid()
      modifies this`blockIndices, this`times, this`txs, this`chain, this`tip, state
      ensures r == Verdict(old(CurrentDb()), b, info.height, ringValid)
      ensures r != Fatal ==> Valid()
      ensures r.Applied? ==> chain == old(chain) + [info.hash]
      ensures r.Applied? ==> tip == Tip(info.hash, info.height, info.cumulativeDifficulty)
      ensures r.Rejected? ==> CurrentDb() == old(CurrentDb()) && chain == old(chain) && tip == old(tip)
    {
      hide OneMemberRings, WellFormed, Follows, Replay, Good, Verdict, MainChainApplied, MoneyOk;
      AdvanceReady(CurrentDb(), headers, blocks, genesis, chain, tip, owner, info.hash);
      r := RedoBlock(b, info.height, BlocksOf(blocks, chain));
      if r.Applied? {
        AdvanceFollows(CurrentDb(), headers, blocks, genesis, chain, tip, owner, info.hash);
        OneMoreApplied(blocks, chain, ringValid, info.hash);
        chain := chain + [info.hash];
        tip := Tip(info.hash, info.height, info.cumulativeDifficulty);
      }
    }

    /** Undoes the last block. Nothing can go wrong, because the database is a replay of the main chain. */
    method Retreat()
      requires Valid() && tip.height > 0 && |chain| == tip.height + 1
      modifies this`blockIndices, this`times, this`txs, this`chain, this`tip, state
      ensures Valid() && tip.height == old(tip).height - 1 && chain == old(chain)[..tip.height + 1]
      ensures old(tip).bid in headers && tip.bid == headers[old(tip).bid].previous
    {
      hide OneMemberRings, WellFormed, Follows, MainChainApplied, MoneyOk, UndoDb;
      RetreatWellFormed(headers, blocks, genesis, chain, tip);
      TipIsLast(headers, blocks, genesis, chain, tip);
      RetreatFollows(CurrentDb(), blocks, chain, owner);
      var b := blocks[tip.bid];
      OneLessApplied(blocks, chain, ringValid, tip.height);
      var ok := UndoBlock(b, tip.height);
      assert ok;
      chain := chain[..tip.height];
      tip := Tip(b.previous, tip.height - 1, headers[b.previous].cumulativeDifficulty);
    }

    /** Switches to the branch of a stored block: undoes down to the last common block, then executes upwards until
        the branch ends or a block is refused. Whatever happens the main chain stays on that branch. */
    method ReorganizeBlocks(switchTo: Hash) returns (r: RedoResult)
      requires Tree(headers, genesis) && switchTo in headers && headers.Keys == blocks.Keys && tip.bid in headers
      requires Valid()
      modifies this`blockIndices, this`times, this`txs, this`chain, this`tip, state
      ensures r != Fatal ==> Valid()
      ensures exists common: Height :: Switched(old(tip).bid, switchTo, common, r)
      ensures r != Fatal ==> (r.Applied? <==> tip.bid == switchTo)
    {
      hide OneMemberRings, WellFormed, Follows, MainChainApplied, MoneyOk, Tree, PathDown, At, LastCommon, Verdict,
          Branch, BranchVerdict, BranchEnd;
      TipIsStored(headers, blocks, genesis, chain, tip);
      var common, chain1, chain2 := GetCommonBlock(headers, genesis, tip.bid, switchTo);
      UndoDownTo(common);
      r := RedoUpTo(switchTo, chain2);
      assert Switched(old(tip).bid, switchTo, headers[common].height, r);
    }

    /** Undoes blocks until the tip is a given ancestor of it. */
    method UndoDownTo(common: Hash)
      requires Valid() && Tree(headers, genesis) && tip.bid in headers && tip.height == headers[tip.bid].height
      requires common in headers && headers[common].height <= tip.height
      requires At(headers, genesis, tip.bid, headers[common].height) == common
      modifies this`blockIndices, this`times, this`txs, this`chain, this`tip, state
      ensures Valid() && tip.bid == common && tip.height == headers[common].height
    {
      hide OneMemberRings, WellFormed, Follows, MainChainApplied, MoneyOk, Tree, At;
      TipIsStored(headers, blocks, genesis, chain, tip);
      var x := headers[common].height;
      while tip.bid != common
        invariant Valid() && x <= tip.height && |chain| == tip.height + 1
        invariant tip.bid in headers && headers[tip.bid].height == tip.height
        invariant At(headers, genesis, tip.bid, x) == common
        decreases tip.height
      {
        OneBelow(headers, genesis, tip.bid, x);
        Retreat();
      }
      TipIsAncestor(headers, genesis, tip.bid, x);
    }

    /** Executes the blocks of a path, the last of it first, as far as it goes. */
    method RedoUpTo(switchTo: Hash, path: seq<Hash>) returns (r: RedoResult)
      requires Tree(headers, genesis) && headers.Keys == blocks.Keys && switchTo in headers && tip.bid in headers
      requires headers[tip.bid].height == tip.height && Walked(headers, genesis, switchTo, tip.bid, path)
      requires Valid()
      modifies this`blockIndices, this`times, this`txs, this`chain, this`tip, state
      ensures r != Fatal ==> (r.Applied? <==> tip.bid == switchTo)
      ensures r != Fatal ==> Valid()
      ensures RedoneFrom(switchTo, old(tip).height + 1, r)
    {
      hide OneMemberRings, WellFormed, Follows, MainChainApplied, MoneyOk, Tree, PathDown, At, Verdict, Branch,
          BranchVerdict;
      var left := path;
      while left != []
        invariant tip.height >= old(tip).height
        invariant Valid() && Walked(headers, genesis, switchTo, tip.bid, left)
        invariant headers[tip.bid].height == tip.height
        invariant BranchEnd(headers, blocks, genesis, ringValid, switchTo, old(tip).height + 1)
               == BranchEnd(headers, blocks, genesis, ringValid, switchTo, tip.height + 1)
        decreases |left|
      {
        var next := left[|left| - 1];
        NextOnPath(headers, genesis, switchTo, tip.bid, left);
        NextVerdict(CurrentDb(), headers, blocks, genesis, chain, tip, owner, ringValid, switchTo);
        MainChainOfBranch(headers, blocks, genesis, chain, tip, switchTo);
        left := left[..|left| - 1];
        r := Advance(blocks[next], headers[next]);
        if !r.Applied? {
          return;
        }
      }
      PathIsWalked(headers, genesis, switchTo, tip.bid);
      MainChainOfBranch(headers, blocks, genesis, chain, tip, switchTo);
      r := Applied;
    }

    /** From the last block common to both branches on, the branch of a block was redone as far as it goes; the result
        is how that ended, and unless the process ends the main chain is the part of the branch that was reached. */
    ghost predicate Switched(from: Hash, to: Hash, common: Height, r: RedoResult)
      reads this
    {
      && Tree(headers, genesis) && from in headers && to in headers
      && LastCommon(headers, genesis, from, to, common) && RedoneFrom(to, common + 1, r)
    }

    /** The branch of a block was redone from height x on, with this result. */
    ghost predicate RedoneFrom(to: Hash, x: Height, r: RedoResult)
      reads this
    {
      && Tree(headers, genesis) && headers.Keys == blocks.Keys && to in headers && x <= headers[to].height + 1
      && var e := BranchEnd(headers, blocks, genesis, ringValid, to, x);
         r == e.0 && (r != Fatal ==> chain == Branch(headers, genesis, to, e.1 + 1))
    }

    // ---- taking in a block ----

    /** The coins generated up to a new block, when its amounts are accepted. */
    ghost function GeneratedBy(b: Block, consensus: Consensus): Option<nat>
      requires Valid() && b.previous in headers && consensus.Meets? && ParamsOk(consensus.params)
      reads this, state
    {
      assert MoneyOkAt(headers, blocks, coins, keyIsValid, b.previous);
      AcceptedMoney(b, consensus.params, coins[b.previous].generated, keyIsValid)
    }

    /** The header a new block gets, when it is taken in at all. */
    ghost function HeaderFor(b: Block, consensus: Consensus): Option<Header>
      requires Valid() && (consensus.Meets? ==> ParamsOk(consensus.params))
      reads this, state
    {
      if b.bid in headers || b.previous !in headers || consensus.Broken? || !CoinbaseOnly(b) then None
      else if GeneratedBy(b, consensus).None? then None
      else
        var previous := headers[b.previous];
        Some(Header(b.bid, b.previous, previous.height + 1, b.timestamp,
                    previous.cumulativeDifficulty + consensus.difficulty))
    }

    /** Stores a block beside the main chain. */
    method StoreBlock(b: Block, header: Header, c: Coins)
      requires b.bid !in headers && b.previous in headers && CoinbaseOnly(b) && b.previous in coins
      requires header.hash == b.bid && header.previous == b.previous && header.timestamp == b.timestamp
      requires header.height == headers[b.previous].height + 1
      requires AcceptedNext((b, c.params), keyIsValid, coins[b.previous].generated, c.generated)
      requires Valid()
      modifies this`blocks, this`headers, this`coins
      ensures blocks == old(blocks)[b.bid := b] && headers == old(headers)[b.bid := header]
              && coins == old(coins)[b.bid := c]
      ensures Valid()
    {
      hide OneMemberRings, WellFormed, Follows, MainChainApplied, MoneyOk, AcceptedNext, CoinbaseOnly;
      TipIsStored(headers, blocks, genesis, chain, tip);
      StoreWellFormed(headers, blocks, genesis, chain, tip, b, header);
      StoreFollows(CurrentDb(), blocks, chain, owner, b);
      StoreApplied(blocks, chain, ringValid, b);
      StoreMoney(headers, blocks, coins, keyIsValid, b, header, c);
      blocks := blocks[b.bid := b];
      headers := headers[b.bid := header];
      coins := coins[b.bid := c];
    }

    /** Stores a block whose parent is known and whose standalone checks pass, and moves the main chain to it when
        its branch has more cumulative difficulty. */
    method AddBlock(b: Block, consensus: Consensus) returns (r: Action)
      requires Valid() && (consensus.Meets? ==> ParamsOk(consensus.params))
      modifies this, state
      ensures r != Exit ==> Valid() && (r == BroadcastAll <==> tip.bid == b.bid && b.bid !in old(headers))
      ensures old(HeaderFor(b, consensus)).Some? ==>
                coins == old(coins)[b.bid := Coins(consensus.params, old(GeneratedBy(b, consensus)).value)]
      ensures var header := old(HeaderFor(b, consensus));
              match header
              case None => unchanged(this) && unchanged(state) && (r == Nothing || r == Ban)
              case Some(hd) =>
                && blocks == old(blocks)[b.bid := b] && headers == old(headers)[b.bid := hd]
                && (hd.cumulativeDifficulty <= old(tip).cumulativeDifficulty ==>
                      r == Nothing && chain == old(chain) && CurrentDb() == old(CurrentDb()))
                && (hd.cumulativeDifficulty > old(tip).cumulativeDifficulty && old(tip).bid == b.previous ==>
                      match Verdict(old(CurrentDb()), b, hd.height, ringValid)
                      case Applied => r == BroadcastAll && chain == old(chain) + [b.bid]
                      case Rejected => r == Ban && chain == old(chain) && CurrentDb() == old(CurrentDb())
                      case Fatal => r == Exit)
                && (hd.cumulativeDifficulty > old(tip).cumulativeDifficulty && old(tip).bid != b.previous ==>
                      exists common: Height, redo: RedoResult ::
                        && Switched(old(tip).bid, b.bid, common, redo)
                        && r == match redo { case Applied => BroadcastAll case Rejected => Nothing case Fatal => Exit })
    {
      hide OneMemberRings, WellFormed, Follows, MainChainApplied, MoneyOk, Tree, At, Verdict, LastCommon, Branch,
          BranchEnd, AcceptedMoney;
      TipIsStored(headers, blocks, genesis, chain, tip);
      if b.bid in headers && b.bid in blocks {
        return Nothing;
      }
      if b.previous !in headers {
        return Nothing;
      }
      if consensus.Broken? || !CoinbaseOnly(b) {
        return Ban;
      }
      AcceptedAt(headers, blocks, coins, keyIsValid, b.previous);
      var generated := CheckMoney(b, consensus.params, coins[b.previous].generated, keyIsValid);
      if generated.None? {
        return Ban;
      }
      var previous := headers[b.previous];
      var header := Header(b.bid, b.previous, previous.height + 1, b.timestamp,
                           previous.cumulativeDifficulty + consensus.difficulty);
      StoreBlock(b, header, Coins(consensus.params, generated.value));
      TipIsStored(headers, blocks, genesis, chain, tip);
      if header.cumulativeDifficulty > tip.cumulativeDifficulty {
        if tip.bid == b.previous {
          var redo := Advance(b, header);
          if redo == Fatal {
            return Exit;
          }
          if redo == Rejected {
            return Ban;
          }
        } else {
          ghost var from := tip.bid;
          var redo := ReorganizeBlocks(b.bid);
          ghost var common: Height :| Switched(from, b.bid, common, redo);
          assert Switched(old(tip).bid, b.bid, common, redo);
          if redo == Fatal {
            return Exit;
          }
        }
      }
      r := if tip.bid == b.bid then BroadcastAll else Nothing;
    }

    /** A chain of the genesis block alone, which cannot be refused when its amounts are accepted. */
    constructor (g: Block, p: Params, ringValid: RingCheck, keyIsValid: KeyCheck, ghost owner: Owner)
      requires OneMemberRings(ringValid, owner)
      requires CoinbaseOnly(g) && g.transactions == []
      requires ParamsOk(p) && AcceptedMoney(g, p, 0, keyIsValid).Some?
      ensures Valid() && chain == [g.bid] && fresh(state)
    {
      hide OneMemberRings, Verdict, StateDb.Valid, WellFormed, Follows, MainChainApplied, MoneyOk, Replay, Good,
          CoinbaseOnly,
        AcceptedMoney;
      var generated := CheckMoney(g, p, 0, keyIsValid);
      genesis := g.bid;
      this.ringValid, this.keyIsValid, this.owner := ringValid, keyIsValid, owner;
      state := new StateDb();
      blocks := map[g.bid := g];
      headers := map[g.bid := Header(g.bid, g.previous, 0, g.timestamp, 0)];
      coins := map[g.bid := Coins(p, generated.value)];
      chain, tip := [g.bid], Tip(g.bid, 0, 0);
      blockIndices, times, txs := map[], {}, map[];
      new;
      NothingReplayed(owner);
      GenesisVerdict(g, ringValid);
      var r := RedoBlock(g, 0, []);
      GenesisFollows(CurrentDb(), g, headers, blocks, owner);
      GenesisApplied(g, blocks, ringValid);
      GenesisMoney(g, headers[g.bid], coins[g.bid], keyIsValid);
    }
  }

  lemma {:induction false} GenesisApplied(g: Block, blocks: map<Hash, Block>, ringValid: RingCheck)
    requires CoinbaseOnly(g) && g.transactions == [] && blocks == map[g.bid := g]
    ensures MainChainApplied(blocks, [g.bid], ringValid)
  {
    GenesisVerdict(g, ringValid);
    hide Verdict, CoinbaseOnly;
    assert BlocksOf(blocks, []) == [] && Replay([]) == EMPTY_DB;
    assert MainChainApplied(blocks, [], ringValid);
    OneMoreApplied(blocks, [], ringValid, g.bid);
    assert [] + [g.bid] == [g.bid];
  }

  lemma {:induction false} NothingReplayed(owner: Owner)
    ensures Replay([]) == EMPTY_DB && Good([], owner)
  {
  }

  lemma {:induction false} GenesisVerdict(g: Block, ringValid: RingCheck)
    requires CoinbaseOnly(g) && g.transactions == []
    ensures Verdict(EMPTY_DB, g, 0, ringValid).Applied?
  {
    assert AllTxs(g) == [g.baseTransaction];
    assert AllInputs(AllTxs(g)) == g.baseTransaction.inputs;
  }

  lemma {:induction false} GenesisFollows(db: Db, g: Block, headers: Headers, blocks: map<Hash, Block>, owner: Owner)
    requires CoinbaseOnly(g) && blocks == map[g.bid := g]
    requires headers == map[g.bid := Header(g.bid, g.previous, 0, g.timestamp, 0)]
    requires db == Replay([] + [g]) && Good([] + [g], owner)
    ensures WellFormed(headers, blocks, g.bid, [g.bid], Tip(g.bid, 0, 0))
    ensures Follows(db, blocks, [g.bid], owner)
  {
    hide Replay, Good;
    assert [] + [g] == [g] == BlocksOf(blocks, [g.bid]);
  }

  lemma {:induction false} PathIsWalked(headers: Headers, genesis: Hash, b: Hash, id: Hash)
    requires Tree(headers, genesis) && b in headers && Walked(headers, genesis, b, id, [])
    ensures id == b
  {
  }

  lemma {:induction false} Accepted(bs: seq<Block>, b: Block, h: Height, ringValid: RingCheck, owner: Owner)
    requires CoinbaseOnly(b) && OneMemberRings(ringValid, owner) && Good(bs, owner)
    requires SignaturesValid(Replay(bs).ledger, b.transactions, h, b.timestamp, ringValid)
    requires DistinctKeyImages(AllInputs(AllTxs(b)))
    ensures Fresh(Replay(bs).ledger, AllInputs(AllTxs(b)))
            && NamedByOwner(Replay(bs).ledger, AllInputs(AllTxs(b)), owner)
    ensures var l := Replay(bs).ledger;
            && ApplyTo(l, TxsDelta(AllTxs(b), h), h) == ExecTxs(l, AllTxs(b), h)
            && TxsDelta(AllTxs(b), h).keyImages.Keys !! l.keyImages.Keys
  {
    ReplaySpentByOwner(bs, owner);
    ChecksMakeExecutable(Replay(bs), b, h, ringValid, owner);
    ReplayNormal(bs);
    FreshInRange(Replay(bs).ledger, AllInputs(AllTxs(b)));
    OverlayIsExecution(Replay(bs).ledger, AllTxs(b), h);
    NoneStored(Replay(bs).ledger, AllTxs(b), h);
  }

  lemma {:induction false} Extended(bs: seq<Block>, b: Block, owner: Owner)
    requires Good(bs, owner)
    requires Fresh(Replay(bs).ledger, AllInputs(AllTxs(b)))
             && NamedByOwner(Replay(bs).ledger, AllInputs(AllTxs(b)), owner)
    requires NewHashes(Replay(bs).txs, b)
    requires b.bid !in Replay(bs).indices && (b.timestamp, |bs|) !in Replay(bs).times
    ensures Good(bs + [b], owner) && Replay(bs + [b]) == RedoDb(Replay(bs), b, |bs|)
  {
    assert (bs + [b])[..|bs|] == bs;
  }

  lemma {:induction false} NextOnPath(headers: Headers, genesis: Hash, b: Hash, id: Hash, path: seq<Hash>)
    requires Tree(headers, genesis) && b in headers && Walked(headers, genesis, b, id, path) && path != []
    ensures var next := path[|path| - 1];
            && Walked(headers, genesis, b, next, path[..|path| - 1])
            && headers[next].height == headers[id].height + 1 && headers[next].previous == id
                && headers[next].hash == next
  {
    var x := headers[id].height;
    var next := At(headers, genesis, b, x + 1);
    PathDownExtends(headers, genesis, b, x + 1);
    AtAt(headers, genesis, b, x + 1, x);
    assert At(headers, genesis, next, x) == headers[next].previous;
  }

  lemma {:induction false} NoArgsSoFar(l: Ledger, txs: seq<Transaction>, n: nat, h: Height, ts: nat)
    requires n <= |txs| && BlockArgs(l, txs[..n], h, ts) == None
    ensures BlockArgs(l, txs, h, ts) == None
    decreases |txs|
  {
    if n == |txs| {
      assert txs[..n] == txs;
    } else {
      assert txs[..|txs| - 1][..n] == txs[..n];
      NoArgsSoFar(l, txs[..|txs| - 1], n, h, ts);
    }
  }

  lemma {:induction false} NoneStored(l: Ledger, txs: seq<Transaction>, h: Height)
    requires Fresh(l, AllInputs(txs))
    ensures TxsDelta(txs, h).keyImages.Keys !! l.keyImages.Keys
  {
    TxsDeltaContent(txs, h, 0);
    forall ki | ki in KeyImagesOf(AllInputs(txs), h)
      ensures ki !in l.keyImages
    {
      KeyImagesMember(AllInputs(txs), h, ki);
    }
  }
}
