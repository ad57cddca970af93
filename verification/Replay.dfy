/** The database as a function of the main chain: what executing its blocks from nothing leaves behind. */
module Replaying {
  import opened ChainTypes
  import opened Ledgers
  import opened Execution
  import opened Overlay
  import opened Spending
  import opened DeltaStates

  datatype Block = Block(
    bid: Hash, previous: Hash, timestamp: nat, baseTransaction: Transaction, transactions: seq<Transaction>)

  /** Key images and outputs; global indexes of every main chain block; the (timestamp, height) index; and the
      position (height, number in block) of every main chain transaction. */
  datatype Db = Db(
    ledger: Ledger, indices: map<Hash, seq<seq<nat>>>, times: set<(nat, Height)>, txs: map<Hash, (Height, nat)>)

  const EMPTY_DB := Db(EMPTY, map[], {}, map[])

  function AllTxs(b: Block): seq<Transaction> {
    [b.baseTransaction] + b.transactions
  }

  predicate CoinbaseOnly(b: Block) {
    |b.baseTransaction.inputs| == 1 && b.baseTransaction.inputs[0].CoinbaseInput?
  }

  // ---- redo ----

  function BlockIndices(l: Ledger, txs: seq<Transaction>, h: Height): seq<seq<nat>> {
    if txs == [] then []
    else
      var n := |txs| - 1;
      BlockIndices(l, txs[..n], h)
      + [OutputIndices(Over(TxsDelta(txs[..n], h), h, Base(l)), txs[n].unlockTime, txs[n].outputs)]
  }

  function Positions(txs: seq<Transaction>, h: Height): map<Hash, (Height, nat)> {
    if txs == [] then map[]
    else
      var n := |txs| - 1;
      Positions(txs[..n], h)[txs[n].hash := (h, n)]
  }

  function RedoDb(db: Db, b: Block, h: Height): Db {
    Db(ExecTxs(db.ledger, AllTxs(b), h),
       db.indices[b.bid := BlockIndices(db.ledger, AllTxs(b), h)],
       db.times + {(b.timestamp, h)},
       db.txs + Positions(AllTxs(b), h))
  }

  function Replay(bs: seq<Block>): Db {
    if bs == [] then EMPTY_DB
    else
      var n := |bs| - 1;
      RedoDb(Replay(bs[..n]), bs[n], n)
  }

  // ---- undo; None is an invariant firing or a database key missing ----

  function DeletePositions(m: map<Hash, (Height, nat)>, txs: seq<Transaction>): Option<map<Hash, (Height, nat)>>
    decreases |txs|
  {
    if txs == [] then Some(m)
    else if txs[0].hash !in m then None
    else DeletePositions(m - {txs[0].hash}, txs[1..])
  }

  function UndoDb(db: Db, b: Block, h: Height): Option<Db> {
    match UndoTxs(db.ledger, AllTxs(b))
    case None => None
    case Some(l) =>
      if b.bid !in db.indices || (b.timestamp, h) !in db.times then None
      else
        match DeletePositions(db.txs, AllTxs(b))
        case None => None
        case Some(m) => Some(Db(l, db.indices - {b.bid}, db.times - {(b.timestamp, h)}, m))
  }

  // ---- when a block can be executed ----

  /** The key image that spends an output for which the ring has no other member. */
  type Owner = PublicKey -> KeyImage

  ghost predicate OneMemberRings(ringValid: RingCheck, owner: Owner) {
    forall tx: Transaction, k: nat, key: PublicKey ::
      k < |tx.inputs| && tx.inputs[k].KeyInput? && ringValid(tx, k, [key]) ==> tx.inputs[k].keyImage == owner(key)
  }

  ghost predicate DistinctHashes(txs: seq<Transaction>) {
    forall i, j | 0 <= i < j < |txs| :: txs[i].hash != txs[j].hash
  }

  ghost predicate NamedByOwner(l: Ledger, inputs: seq<Input>, owner: Owner) {
    forall i | 0 <= i < |inputs| && NamesOutput(inputs[i]) ::
      && Has(l, inputs[i].amount, inputs[i].outputIndexes[0])
      && inputs[i].keyImage == owner(Stack(l, inputs[i].amount)[inputs[i].outputIndexes[0]].key)
  }

  ghost predicate Executable(db: Db, b: Block, h: Height, owner: Owner) {
    && Fresh(db.ledger, AllInputs(AllTxs(b)))
    && NamedByOwner(db.ledger, AllInputs(AllTxs(b)), owner)
    && DistinctHashes(AllTxs(b))
    && (forall tx <- AllTxs(b) :: tx.hash !in db.txs)
    && b.bid !in db.indices
    && (b.timestamp, h) !in db.times
  }

  ghost predicate Good(bs: seq<Block>, owner: Owner) {
    bs != [] ==>
      var n := |bs| - 1;
      Good(bs[..n], owner) && Executable(Replay(bs[..n]), bs[n], n, owner)
  }

  // ---- undo takes back redo ----

  function Hashes(txs: seq<Transaction>): set<Hash> {
    if txs == [] then {} else {txs[0].hash} + Hashes(txs[1..])
  }

  lemma {:induction false} HashesMember(txs: seq<Transaction>, hash: Hash)
    ensures hash in Hashes(txs) <==> exists i :: 0 <= i < |txs| && txs[i].hash == hash
  {
    if txs != [] {
      HashesMember(txs[1..], hash);
      if i :| 0 <= i < |txs| && txs[i].hash == hash {
        assert i > 0 ==> txs[1..][i - 1] == txs[i];
      }
    }
  }

  lemma {:induction false} PositionsKeys(txs: seq<Transaction>, h: Height, hash: Hash)
    ensures hash in Positions(txs, h) <==> exists i :: 0 <= i < |txs| && txs[i].hash == hash
  {
    if txs != [] {
      var n := |txs| - 1;
      PositionsKeys(txs[..n], h, hash);
      if i :| 0 <= i < |txs| && txs[i].hash == hash {
        assert i < n ==> txs[..n][i] == txs[i];
      }
    }
  }

  lemma {:induction false} DeleteAll(m: map<Hash, (Height, nat)>, txs: seq<Transaction>)
    requires DistinctHashes(txs) && Hashes(txs) <= m.Keys
    ensures DeletePositions(m, txs) == Some(m - Hashes(txs))
  {
    if txs == [] {
      assert m - {} == m;
    } else {
      HashesMember(txs[1..], txs[0].hash);
      DeleteAll(m - {txs[0].hash}, txs[1..]);
      assert m - {txs[0].hash} - Hashes(txs[1..]) == m - Hashes(txs);
    }
  }

  lemma {:induction false} DeleteAdded(m: map<Hash, (Height, nat)>, txs: seq<Transaction>, h: Height)
    requires DistinctHashes(txs) && forall tx <- txs :: tx.hash !in m
    ensures DeletePositions(m + Positions(txs, h), txs) == Some(m)
  {
    forall hash
      ensures hash in Positions(txs, h) <==> hash in Hashes(txs)
      ensures hash in Hashes(txs) ==> hash !in m
    {
      PositionsKeys(txs, h, hash);
      HashesMember(txs, hash);
    }
    DeleteAll(m + Positions(txs, h), txs);
    assert m + Positions(txs, h) - Hashes(txs) == m;
  }

  lemma {:induction false} UndoRedo(db: Db, b: Block, h: Height, owner: Owner)
    requires Normal(db.ledger) && Executable(db, b, h, owner)
    ensures UndoDb(RedoDb(db, b, h), b, h) == Some(db)
  {
    hide Normal, Fresh, NamedByOwner, ExecTxs, UndoTxs, BlockIndices, DeletePositions;
    UndoTxsInverse(db.ledger, AllTxs(b), h);
    DeleteAdded(db.txs, AllTxs(b), h);
    var indices := BlockIndices(db.ledger, AllTxs(b), h);
    assert db.indices[b.bid := indices] - {b.bid} == db.indices;
    assert db.times + {(b.timestamp, h)} - {(b.timestamp, h)} == db.times;
  }

  function UndoBlocks(db: Db, bs: seq<Block>, h: Height): Option<Db>
    decreases |bs|
  {
    if bs == [] then Some(db)
    else
      var n := |bs| - 1;
      match UndoDb(db, bs[n], h + n)
      case None => None
      case Some(below) => UndoBlocks(below, bs[..n], h)
  }

  /** Undoing the end of any replayed chain, block by block, gives the replay of what is left: no key image, output,
      spent flag or index entry of the undone blocks survives, and none of the others is lost. */
  lemma {:induction false} UndoingIsReplayingLess(base: seq<Block>, bs: seq<Block>, owner: Owner)
    requires Good(base + bs, owner)
    ensures UndoBlocks(Replay(base + bs), bs, |base|) == Some(Replay(base))
  {
    hide UndoDb, RedoDb, Executable, Normal;
    if bs == [] {
      assert base + bs == base;
    } else {
      var n := |bs| - 1;
      assert (base + bs)[..|base| + n] == base + bs[..n];
      ReplayNormal(base + bs[..n]);
      UndoRedo(Replay(base + bs[..n]), bs[n], |base| + n, owner);
      UndoingIsReplayingLess(base, bs[..n], owner);
    }
  }

  // ---- the shape of a replayed database ----

  lemma {:induction false} ReplayNormal(bs: seq<Block>)
    ensures Normal(Replay(bs).ledger)
  {
    if bs != [] {
      ReplayNormal(bs[..|bs| - 1]);
    }
  }

  lemma {:induction false} ReplayIndexes(bs: seq<Block>, bid: Hash, time: (nat, Height))
    ensures bid in Replay(bs).indices <==> exists b <- bs :: b.bid == bid
    ensures time in Replay(bs).times ==> time.1 < |bs|
  {
    hide ExecTxs, BlockIndices, Positions;
    if bs != [] {
      var n := |bs| - 1;
      ReplayIndexes(bs[..n], bid, time);
      if b :| b in bs && b.bid == bid {
        assert b in bs[..n] || b == bs[n];
      }
    }
  }

  /** A flagged output has been spent by the one key image that can. */
  ghost predicate SpentByOwner(l: Ledger, owner: Owner) {
    forall a: Amount, g: nat | Has(l, a, g) && Stack(l, a)[g].spent :: owner(Stack(l, a)[g].key) in l.keyImages
  }

  lemma {:induction false} RedoKeepsSpentByOwner(l: Ledger, txs: seq<Transaction>, h: Height, owner: Owner)
    requires SpentByOwner(l, owner) && Fresh(l, AllInputs(txs)) && NamedByOwner(l, AllInputs(txs), owner)
    ensures SpentByOwner(ExecTxs(l, txs, h), owner)
  {
    var r := ExecTxs(l, txs, h);
    var inputs := AllInputs(txs);
    TxsKeyImages(l, txs, h);
    FreshInRange(l, inputs);
    forall a: Amount, g: nat | Has(r, a, g) && Stack(r, a)[g].spent
      ensures owner(Stack(r, a)[g].key) in r.keyImages
    {
      TxsStack(l, txs, h, a);
      if Has(l, a, g) {
        FlaggedAt(Stack(l, a), a, SpendsOf(inputs), g);
        if !Stack(l, a)[g].spent {
          SpendsMember(inputs, (a, g));
          var i :| 0 <= i < |inputs| && NamesOutput(inputs[i])
              && (inputs[i].amount, inputs[i].outputIndexes[0]) == (a, g);
          KeyImagesMember(inputs, h, inputs[i].keyImage);
        }
      } else {
        EntriesAt(AllOutputsOf(txs, a), h, g - |Stack(l, a)|);
      }
    }
  }

  lemma {:induction false} ReplaySpentByOwner(bs: seq<Block>, owner: Owner)
    requires Good(bs, owner)
    ensures SpentByOwner(Replay(bs).ledger, owner)
  {
    if bs != [] {
      var n := |bs| - 1;
      ReplaySpentByOwner(bs[..n], owner);
      RedoKeepsSpentByOwner(Replay(bs[..n]).ledger, AllTxs(bs[n]), n, owner);
    }
  }

  // ---- the checks made before a block is executed ----

  ghost predicate SignaturesValid(l: Ledger, txs: seq<Transaction>, h: Height, ts: nat, ringValid: RingCheck) {
    forall k | 0 <= k < |txs| :: forall j | 0 <= j < |txs[k].inputs| :: InputSigned(l, txs[k], j, h, ts, ringValid)
  }

  lemma {:induction false} InputOrigin(txs: seq<Transaction>, i: nat) returns (k: nat, j: nat)
    requires i < |AllInputs(txs)|
    ensures k < |txs| && j < |txs[k].inputs| && txs[k].inputs[j] == AllInputs(txs)[i]
  {
    var n := |txs| - 1;
    var before := AllInputs(txs[..n]);
    if i < |before| {
      k, j := InputOrigin(txs[..n], i);
    } else {
      k, j := n, i - |before|;
    }
  }

  /** Every key input of a block resolves and is signed. */
  ghost predicate Checked(l: Ledger, i: Input, tx: Transaction, j: nat, h: Height, ts: nat, ringValid: RingCheck) {
    && j < |tx.inputs| && tx.inputs[j] == i && i.KeyInput?
    && ResolveInput(Base(l), i, h, ts).Keys?
    && ringValid(tx, j, ResolveInput(Base(l), i, h, ts).keys)
  }

  lemma {:induction false} CheckedNames(l: Ledger, i: Input, tx: Transaction, j: nat, h: Height, ts: nat,
                                        ringValid: RingCheck, owner: Owner)
    requires Checked(l, i, tx, j, h, ts, ringValid) && OneMemberRings(ringValid, owner) && SpentByOwner(l, owner)
    requires NamesOutput(i)
    ensures Has(l, i.amount, i.outputIndexes[0])
    ensures var e := Stack(l, i.amount)[i.outputIndexes[0]]; i.keyImage == owner(e.key) && !e.spent
  {
    var g := i.outputIndexes[0];
    assert AbsoluteIndexes(i.outputIndexes) == [g];
    ResolvedMember(Base(l), i.amount, [g], h, ts, 0);
    assert ResolveInput(Base(l), i, h, ts).keys == [Stack(l, i.amount)[g].key];
  }

  /** A block that passes the checks, spends no key image twice and has new hashes can be executed and undone. */
  lemma {:induction false} ChecksMakeExecutable(db: Db, b: Block, h: Height, ringValid: RingCheck, owner: Owner)
    requires CoinbaseOnly(b) && OneMemberRings(ringValid, owner) && SpentByOwner(db.ledger, owner)
    requires SignaturesValid(db.ledger, b.transactions, h, b.timestamp, ringValid)
    requires DistinctKeyImages(AllInputs(AllTxs(b)))
    ensures Fresh(db.ledger, AllInputs(AllTxs(b))) && NamedByOwner(db.ledger, AllInputs(AllTxs(b)), owner)
  {
    var l, ts := db.ledger, b.timestamp;
    var inputs := AllInputs(AllTxs(b));
    forall i | 0 <= i < |inputs| && inputs[i].KeyInput?
      ensures inputs[i].keyImage !in l.keyImages
      ensures NamesOutput(inputs[i]) ==>
                && Has(l, inputs[i].amount, inputs[i].outputIndexes[0])
                && var e := Stack(l, inputs[i].amount)[inputs[i].outputIndexes[0]];
                   inputs[i].keyImage == owner(e.key) && !e.spent
    {
      var k, j := InputOrigin(AllTxs(b), i);
      assert k > 0;
      assert AllTxs(b)[k] == b.transactions[k - 1];
      assert InputSigned(l, b.transactions[k - 1], j, h, ts, ringValid);
      assert Checked(l, inputs[i], AllTxs(b)[k], j, h, ts, ringValid);
      if NamesOutput(inputs[i]) {
        CheckedNames(l, inputs[i], AllTxs(b)[k], j, h, ts, ringValid, owner);
      }
    }
  }

  // ---- the batch of signature checks of a block ----

  datatype RingArg = RingArg(tx: Transaction, input: nat, keys: seq<PublicKey>)

  function InputsArgs(l: Ledger, tx: Transaction, n: nat, h: Height, ts: nat): Option<seq<RingArg>>
    requires n <= |tx.inputs|
  {
    if n == 0 then Some([])
    else
      match InputsArgs(l, tx, n - 1, h, ts)
      case None => None
      case Some(args) =>
        if !tx.inputs[n - 1].KeyInput? then Some(args)
        else
          match ResolveInput(Base(l), tx.inputs[n - 1], h, ts)
          case Bad(_) => None
          case Keys(keys) => Some(args + [RingArg(tx, n - 1, keys)])
  }

  /** One argument for every key input of the block, or None when some input does not resolve. */
  function BlockArgs(l: Ledger, txs: seq<Transaction>, h: Height, ts: nat): Option<seq<RingArg>> {
    if txs == [] then Some([])
    else
      var n := |txs| - 1;
      match BlockArgs(l, txs[..n], h, ts)
      case None => None
      case Some(args) =>
        match InputsArgs(l, txs[n], |txs[n].inputs|, h, ts)
        case None => None
        case Some(more) => Some(args + more)
  }

  ghost predicate ArgsValid(args: seq<RingArg>, ringValid: RingCheck) {
    forall i | 0 <= i < |args| :: ringValid(args[i].tx, args[i].input, args[i].keys)
  }

  ghost predicate InputSigned(l: Ledger, tx: Transaction, j: nat, h: Height, ts: nat, ringValid: RingCheck)
    requires j < |tx.inputs|
  {
    tx.inputs[j].KeyInput? ==>
      var m := ResolveInput(Base(l), tx.inputs[j], h, ts);
      m.Keys? && ringValid(tx, j, m.keys)
  }

  lemma {:induction false} ArgsValidAppend(xs: seq<RingArg>, ys: seq<RingArg>, ringValid: RingCheck)
    ensures ArgsValid(xs + ys, ringValid) <==> ArgsValid(xs, ringValid) && ArgsValid(ys, ringValid)
  {
    var all := xs + ys;
    if ArgsValid(all, ringValid) {
      assert forall i | 0 <= i < |xs| :: all[i] == xs[i];
      assert forall i | 0 <= i < |ys| :: all[|xs| + i] == ys[i];
    }
  }

  lemma {:induction false} InputsArgsMeaning(l: Ledger, tx: Transaction, n: nat, h: Height, ts: nat,
                                             ringValid: RingCheck)
    requires n <= |tx.inputs|
    ensures var args := InputsArgs(l, tx, n, h, ts);
            (args.Some? && ArgsValid(args.value, ringValid)) <==>
            forall j | 0 <= j < n :: InputSigned(l, tx, j, h, ts, ringValid)
  {
    if n > 0 {
      InputsArgsMeaning(l, tx, n - 1, h, ts, ringValid);
      var before := InputsArgs(l, tx, n - 1, h, ts);
      var m := if tx.inputs[n - 1].KeyInput? then ResolveInput(Base(l), tx.inputs[n - 1], h, ts) else Bad(UnknownType);
      if before.Some? && m.Keys? {
        var arg := RingArg(tx, n - 1, m.keys);
        ArgsValidAppend(before.value, [arg], ringValid);
        assert ArgsValid([arg], ringValid) <==> ringValid(([arg])[0].tx, n - 1, m.keys);
      }
      assert (forall j | 0 <= j < n :: InputSigned(l, tx, j, h, ts, ringValid)) <==>
             (forall j | 0 <= j < n - 1 :: InputSigned(l, tx, j, h, ts, ringValid))
             && InputSigned(l, tx, n - 1, h, ts, ringValid);
    }
  }

  /** All inputs resolve and all checks of the batch succeed exactly when every key input of the block is signed. */
  lemma {:induction false} BlockArgsMeaning(l: Ledger, txs: seq<Transaction>, h: Height, ts: nat, ringValid: RingCheck)
    ensures var args := BlockArgs(l, txs, h, ts);
            (args.Some? && ArgsValid(args.value, ringValid)) <==> SignaturesValid(l, txs, h, ts, ringValid)
  {
    if txs != [] {
      var n := |txs| - 1;
      BlockArgsMeaning(l, txs[..n], h, ts, ringValid);
      InputsArgsMeaning(l, txs[n], |txs[n].inputs|, h, ts, ringValid);
      var xs, ys := BlockArgs(l, txs[..n], h, ts), InputsArgs(l, txs[n], |txs[n].inputs|, h, ts);
      if xs.Some? && ys.Some? {
        ArgsValidAppend(xs.value, ys.value, ringValid);
      }
    }
  }
}
