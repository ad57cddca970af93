/** The memory pool: transactions by hash, by key image and by fee, which always describe the same set. */
module Mempools {
  import opened ChainTypes
  import opened Orders

  const MAX_POOL_SIZE := 2000000

  /** A transaction as the pool sees it: the key images of its inputs, its size and its fee. */
  datatype PoolTx = PoolTx(keyImages: seq<KeyImage>, size: nat, fee: Amount)

  type Txs = map<Hash, PoolTx>

  datatype Pool = Pool(txs: Txs, keyImages: map<KeyImage, Hash>, fees: map<nat, set<Hash>>, totalSize: int)

  const EMPTY_POOL := Pool(map[], map[], map[], 0)

  function FeePerByte(tx: PoolTx): nat {
    if tx.size == 0 then 0 else tx.fee / tx.size
  }

  /** Transaction t is worth less than u, by fee per byte and then by hash. */
  predicate Lower(t: Hash, fee: nat, u: Hash, otherFee: nat) {
    fee < otherFee || (fee == otherFee && t < u)
  }

  predicate IsLowest(txs: Txs, t: Hash) {
    t in txs && forall u <- txs :: u != t ==> Lower(t, FeePerByte(txs[t]), u, FeePerByte(txs[u]))
  }

  ghost predicate DistinctKeyImages(kis: seq<KeyImage>) {
    forall i, j | 0 <= i < j < |kis| :: kis[i] != kis[j]
  }

  // ---- sizes ----

  ghost function SizeOf(txs: Txs): int
    decreases |txs|
  {
    if txs == map[] then 0
    else
      var t :| t in txs;
      txs[t].size + SizeOf(txs - {t})
  }

  lemma {:induction false} SizeWithout(txs: Txs, x: Hash)
    requires x in txs
    ensures SizeOf(txs) == txs[x].size + SizeOf(txs - {x})
    decreases |txs|
  {
    var t :| t in txs && SizeOf(txs) == txs[t].size + SizeOf(txs - {t});
    if t != x {
      SizeWithout(txs - {t}, x);
      SizeWithout(txs - {x}, t);
      assert txs - {t} - {x} == txs - {x} - {t};
    }
  }

  lemma {:induction false} SizeWith(txs: Txs, t: Hash, tx: PoolTx)
    requires t !in txs
    ensures SizeOf(txs[t := tx]) == SizeOf(txs) + tx.size
  {
    SizeWithout(txs[t := tx], t);
    assert txs[t := tx] - {t} == txs;
  }

  lemma {:induction false} SizeNonNegative(txs: Txs)
    ensures SizeOf(txs) >= 0
    decreases |txs|
  {
    if t :| t in txs {
      SizeWithout(txs, t);
      SizeNonNegative(txs - {t});
    }
  }

  lemma {:induction false} SizeMonotone(txs: Txs, more: Txs)
    requires forall t <- txs :: t in more && more[t] == txs[t]
    ensures SizeOf(txs) <= SizeOf(more)
    decreases |txs|
  {
    if t :| t in txs {
      SizeWithout(txs, t);
      SizeWithout(more, t);
      SizeMonotone(txs - {t}, more - {t});
    } else {
      SizeNonNegative(more);
    }
  }

  // ---- the invariant ----

  ghost predicate KeyImagesOk(txs: Txs, kis: map<KeyImage, Hash>) {
    && (forall t <- txs :: DistinctKeyImages(txs[t].keyImages))
    && (forall t: Hash, ki: KeyImage | t in txs && ki in txs[t].keyImages :: ki in kis && kis[ki] == t)
    && (forall ki <- kis :: kis[ki] in txs && ki in txs[kis[ki]].keyImages)
  }

  ghost predicate FeesOk(txs: Txs, fees: map<nat, set<Hash>>) {
    && (forall f <- fees :: fees[f] != {} && forall t <- fees[f] :: t in txs && FeePerByte(txs[t]) == f)
    && (forall t <- txs :: FeePerByte(txs[t]) in fees && t in fees[FeePerByte(txs[t])])
  }

  /** Without its lowest transaction, the pool is below its maximum. */
  ghost predicate Bounded(p: Pool) {
    forall t | IsLowest(p.txs, t) :: p.totalSize - p.txs[t].size < MAX_POOL_SIZE
  }

  /** The three indexes describe the same set, the size is its size, and nothing in it is spent on the chain. */
  ghost predicate PoolOk(p: Pool, spent: set<KeyImage>) {
    && (forall t <- p.txs :: p.txs[t].size > 0)
    && KeyImagesOk(p.txs, p.keyImages) && FeesOk(p.txs, p.fees)
    && p.totalSize == SizeOf(p.txs)
    && (forall ki <- p.keyImages :: ki !in spent)
  }

  // ---- changes ----

  function Unfiled(fees: map<nat, set<Hash>>, f: nat, t: Hash): map<nat, set<Hash>>
    requires f in fees
  {
    if fees[f] == {t} then fees - {f} else fees[f := fees[f] - {t}]
  }

  function Filed(fees: map<nat, set<Hash>>, f: nat, t: Hash): map<nat, set<Hash>> {
    fees[f := (if f in fees then fees[f] else {}) + {t}]
  }

  function Named(kis: seq<KeyImage>, t: Hash): map<KeyImage, Hash> {
    map ki | ki in kis :: t
  }

  function Without(p: Pool, t: Hash): Pool {
    if t in p.txs && FeePerByte(p.txs[t]) in p.fees then
      Pool(p.txs - {t}, p.keyImages - (set ki | ki in p.txs[t].keyImages), Unfiled(p.fees, FeePerByte(p.txs[t]), t),
           p.totalSize - p.txs[t].size)
    else p
  }

  function With(p: Pool, t: Hash, tx: PoolTx): Pool {
    Pool(p.txs[t := tx], p.keyImages + Named(tx.keyImages, t), Filed(p.fees, FeePerByte(tx), t), p.totalSize + tx.size)
  }

  lemma {:induction false} WithoutKeyImages(txs: Txs, kis: map<KeyImage, Hash>, t: Hash)
    requires KeyImagesOk(txs, kis) && t in txs
    ensures KeyImagesOk(txs - {t}, kis - (set ki | ki in txs[t].keyImages))
  {
    hide DistinctKeyImages;
    var rest, left := txs - {t}, kis - (set ki | ki in txs[t].keyImages);
    assert forall ki <- txs[t].keyImages :: ki in kis && kis[ki] == t;
    forall u: Hash, ki: KeyImage | u in rest && ki in rest[u].keyImages
      ensures ki in left && left[ki] == u
    {
      assert kis[ki] == u;
    }
  }

  lemma {:induction false} WithoutFees(txs: Txs, fees: map<nat, set<Hash>>, t: Hash)
    requires FeesOk(txs, fees) && t in txs
    ensures FeePerByte(txs[t]) in fees && FeesOk(txs - {t}, Unfiled(fees, FeePerByte(txs[t]), t))
  {
    hide FeePerByte;
  }

  lemma {:induction false} WithoutIsOk(p: Pool, spent: set<KeyImage>, t: Hash)
    requires PoolOk(p, spent)
    ensures PoolOk(Without(p, t), spent) && Without(p, t).txs == p.txs - {t}
    ensures t in p.txs ==> Without(p, t).totalSize == p.totalSize - p.txs[t].size
    ensures t in p.txs ==> Without(p, t).keyImages == p.keyImages - (set ki | ki in p.txs[t].keyImages)
  {
    if t in p.txs {
      WithoutFees(p.txs, p.fees, t);
      WithoutKeyImages(p.txs, p.keyImages, t);
      SizeWithout(p.txs, t);
      hide SizeOf, FeePerByte, KeyImagesOk, FeesOk, Unfiled;
    } else {
      assert p.txs - {t} == p.txs;
    }
  }

  lemma {:induction false} WithKeyImages(txs: Txs, kis: map<KeyImage, Hash>, t: Hash, tx: PoolTx)
    requires KeyImagesOk(txs, kis) && t !in txs && DistinctKeyImages(tx.keyImages) && forall ki <- tx.keyImages ::
             ki !in kis
    ensures KeyImagesOk(txs[t := tx], kis + Named(tx.keyImages, t))
  {
    hide DistinctKeyImages;
  }

  lemma {:induction false} WithFees(txs: Txs, fees: map<nat, set<Hash>>, t: Hash, tx: PoolTx)
    requires FeesOk(txs, fees) && t !in txs
    ensures FeesOk(txs[t := tx], Filed(fees, FeePerByte(tx), t))
  {
    hide FeePerByte;
  }

  lemma {:induction false} WithIsOk(p: Pool, spent: set<KeyImage>, t: Hash, tx: PoolTx)
    requires PoolOk(p, spent) && t !in p.txs && tx.size > 0 && DistinctKeyImages(tx.keyImages)
    requires forall ki <- tx.keyImages :: ki !in p.keyImages && ki !in spent
    ensures PoolOk(With(p, t, tx), spent)
  {
    WithKeyImages(p.txs, p.keyImages, t, tx);
    WithFees(p.txs, p.fees, t, tx);
    SizeWith(p.txs, t, tx);
    hide SizeOf, FeePerByte, KeyImagesOk, FeesOk, DistinctKeyImages, Filed;
  }

  lemma {:induction false} LowestIsUnique(txs: Txs, t: Hash, u: Hash)
    requires IsLowest(txs, t) && IsLowest(txs, u)
    ensures t == u
  {
    hide FeePerByte;
  }

  /** Taking out any transaction, the lowest or another one, keeps the bound. */
  lemma {:induction false} WithoutIsBounded(p: Pool, spent: set<KeyImage>, t: Hash)
    requires PoolOk(p, spent) && Bounded(p)
    ensures Bounded(Without(p, t))
  {
    hide SizeOf, FeePerByte, KeyImagesOk, FeesOk, Without;
    var q := Without(p, t);
    WithoutIsOk(p, spent, t);
    if t in p.txs {
      LowestExists(p.txs);
      var v :| IsLowest(p.txs, v);
      forall u | IsLowest(q.txs, u)
        ensures q.totalSize - q.txs[u].size < MAX_POOL_SIZE
      {
        if v != t {
          LowestOfRest(p.txs, t, v);
          LowestIsUnique(q.txs, u, v);
        }
      }
    } else {
      NotThere(p, t);
    }
  }

  lemma {:induction false} LowestOfRest(txs: Txs, t: Hash, v: Hash)
    requires IsLowest(txs, v) && v != t
    ensures IsLowest(txs - {t}, v)
  {
    hide FeePerByte;
  }

  lemma {:induction false} NotThere(p: Pool, t: Hash)
    requires t !in p.txs
    ensures Without(p, t) == p
  {
  }

  lemma {:induction false} LowestExists(txs: Txs)
    requires txs != map[]
    ensures exists t :: IsLowest(txs, t)
  {
    var t := Lowest(txs, txs.Keys);
    assert IsLowest(txs, t);
  }

  lemma {:induction false} Lowest(txs: Txs, s: set<Hash>) returns (t: Hash)
    requires s <= txs.Keys && s != {}
    ensures t in s && forall u <- s :: u != t ==> Lower(t, FeePerByte(txs[t]), u, FeePerByte(txs[u]))
    decreases |s|
  {
    hide FeePerByte;
    t :| t in s;
    if s != {t} {
      var u := Lowest(txs, s - {t});
      forall v | v in s
        ensures v == u || v == t || Lower(u, FeePerByte(txs[u]), v, FeePerByte(txs[v]))
      {
        assert v == t || v in s - {t};
      }
      t := if Lower(t, FeePerByte(txs[t]), u, FeePerByte(txs[u])) then t else u;
    }
  }

  // ---- the pool ----

  datatype AddResult = AlreadyInPool | IncreaseFee | OutputAlreadySpent | Ban | FailedToRedo | BroadcastAll

  /** What is known about a transaction apart from the pool: whether it is valid by itself, and whether it can be
      executed on top of the chain. */
  datatype Candidate = Candidate(tid: Hash, tx: PoolTx, validated: bool, redone: bool)

  ghost predicate CandidateOk(c: Candidate) {
    c.tx.size > 0 && (c.validated ==> DistinctKeyImages(c.tx.keyImages))
  }

  /** The lowest transaction is the first of the first bucket. */
  lemma {:induction false} FirstIsLowest(txs: Txs, fees: map<nat, set<Hash>>, f: nat, t: Hash)
    requires FeesOk(txs, fees) && f in fees && t in fees[f]
    requires (forall g <- fees :: f <= g) && forall u <- fees[f] :: t <= u
    ensures IsLowest(txs, t) && FeePerByte(txs[t]) == f
  {
    hide FeePerByte;
  }

  lemma {:induction false} IsIndexed(p: Pool, spent: set<KeyImage>, t: Hash)
    requires PoolOk(p, spent) && t in p.txs
    ensures KeyImagesOk(p.txs, p.keyImages)
    ensures FeePerByte(p.txs[t]) in p.fees && t in p.fees[FeePerByte(p.txs[t])] && p.fees[FeePerByte(p.txs[t])] != {}
  {
    hide FeePerByte;
  }

  ghost predicate SharesKeyImage(tx: PoolTx, other: PoolTx) {
    exists ki <- tx.keyImages :: ki in other.keyImages
  }

  predicate Outranked(c: Candidate, t: Hash, tx: PoolTx) {
    Lower(c.tid, FeePerByte(c.tx), t, FeePerByte(tx))
  }

  predicate Outranks(c: Candidate, t: Hash, tx: PoolTx) {
    Lower(t, FeePerByte(tx), c.tid, FeePerByte(c.tx))
  }

  ghost predicate PartOf(txs: Txs, more: Txs) {
    forall t <- txs :: t in more && txs[t] == more[t]
  }

  /** What was in the pool and made way for c: it shares a key image with c and is worth less. */
  ghost predicate Displaced(was: Txs, now: Txs, c: Candidate) {
    PartOf(now, was) && forall t <- was | t !in now :: SharesKeyImage(c.tx, was[t]) && Outranks(c, t, was[t])
  }

  /** What was in the pool and was dropped for its size: it is worth less than everything that stays. */
  ghost predicate Dropped(was: Txs, now: Txs, totalSize: int) {
    && PartOf(now, was)
    && (forall t <- was | t !in now :: totalSize >= MAX_POOL_SIZE &&
          forall u <- now :: Lower(t, FeePerByte(was[t]), u, FeePerByte(now[u])))
  }

  /** When c is the lowest of the pool, there is nothing to drop: the others were never too large without their lowest,
      or c would not have been taken in. */
  lemma {:induction false} NeverDropsItself(before: Pool, spent: set<KeyImage>, c: Candidate, txs: Txs)
    requires PoolOk(before, spent) && Bounded(before) && IsLowest(txs, c.tid) && txs[c.tid] == c.tx
             && c.tid !in before.txs
    requires PartOf(txs - {c.tid}, before.txs)
    requires before.totalSize >= MAX_POOL_SIZE ==> forall t | IsLowest(before.txs, t) :: !Outranked(c, t, before.txs[t])
    ensures SizeOf(txs) < MAX_POOL_SIZE + c.tx.size
  {
    hide KeyImagesOk, FeesOk, FeePerByte;
    var rest := txs - {c.tid};
    SizeWithout(txs, c.tid);
    SizeMonotone(rest, before.txs);
    if before.totalSize >= MAX_POOL_SIZE {
      EmptySize();
      LowestExists(before.txs);
      var v :| IsLowest(before.txs, v);
      assert v !in rest;
      SizeWithout(before.txs, v);
      SizeMonotone(rest, before.txs - {v});
    }
  }

  lemma {:induction false} EmptySize()
    ensures SizeOf(map[]) == 0
  {
  }

  lemma {:induction false} DropOne(was: Txs, now: Txs, totalSize: int, t: Hash)
    requires Dropped(was, now, totalSize) && IsLowest(now, t) && totalSize - now[t].size >= MAX_POOL_SIZE
    ensures Dropped(was, now - {t}, totalSize - now[t].size)
  {
    hide FeePerByte;
  }

  lemma {:induction false} DisplaceOne(was: Txs, now: Txs, c: Candidate, t: Hash, ki: KeyImage)
    requires Displaced(was, now, c) && t in now && ki in c.tx.keyImages && ki in now[t].keyImages
             && Outranks(c, t, now[t])
    ensures Displaced(was, now - {t}, c)
  {
    hide Outranks;
    assert SharesKeyImage(c.tx, now[t]);
  }

  /** A pool that is not over its maximum is below it without its lowest, as no transaction is empty. */
  lemma {:induction false} SmallIsBounded(p: Pool, spent: set<KeyImage>)
    requires PoolOk(p, spent) && p.totalSize <= MAX_POOL_SIZE
    ensures Bounded(p)
  {
    hide KeyImagesOk, FeesOk, SizeOf, FeePerByte;
  }

  lemma {:induction false} LowestIsBounded(p: Pool, t: Hash)
    requires IsLowest(p.txs, t) && p.totalSize - p.txs[t].size < MAX_POOL_SIZE
    ensures Bounded(p)
  {
    forall u | IsLowest(p.txs, u)
      ensures u == t
    {
      LowestIsUnique(p.txs, t, u);
    }
  }

  class Mempool {
    var txs: Txs
    var keyImages: map<KeyImage, Hash>
    var fees: map<nat, set<Hash>>
    var totalSize: int
    var spent: set<KeyImage> // of the chain

    function Content(): Pool
      reads this
    {
      Pool(txs, keyImages, fees, totalSize)
    }

    ghost predicate Valid()
      reads this
    {
      PoolOk(Content(), spent) && Bounded(Content())
    }

    constructor ()
      ensures Valid() && txs == map[] && spent == {}
    {
      txs, keyImages, fees, totalSize, spent := map[], map[], map[], 0, {};
    }

    /** The lowest transaction, if there is one. */
    method MinimumFee() returns (t: Hash, fee: nat)
      requires FeesOk(txs, fees) && txs != map[]
      ensures IsLowest(txs, t) && fee == FeePerByte(txs[t])
    {
      var u :| u in txs;
      assert FeePerByte(txs[u]) in fees;
      LeastExists(fees.Keys);
      var f :| f in fees.Keys && forall g <- fees.Keys :: f <= g;
      LeastExists(fees[f]);
      t :| t in fees[f] && forall v <- fees[f] :: t <= v;
      FirstIsLowest(txs, fees, f, t);
      fee := f;
    }

    /** Takes a transaction out of all indexes. Everything that has to be there is there. */
    method RemoveFromPool(tid: Hash)
      requires PoolOk(Content(), spent)
      modifies this`txs, this`keyImages, this`fees, this`totalSize
      ensures Content() == Without(old(Content()), tid)
      ensures tid in old(txs) ==> totalSize == old(totalSize) - old(txs)[tid].size
      ensures PoolOk(Content(), spent) && txs == old(txs) - {tid} && (old(Bounded(Content())) ==> Bounded(Content()))
    {
      hide SizeOf, FeePerByte, Bounded, PoolOk, KeyImagesOk, FeesOk, Unfiled;
      WithoutIsOk(Content(), spent, tid);
      if Bounded(Content()) {
        WithoutIsBounded(Content(), spent, tid);
      }
      if tid !in txs {
        return;
      }
      IsIndexed(Content(), spent, tid);
      var tx := txs[tid];
      EraseKeyImages(tid);
      fees := Unfiled(fees, FeePerByte(tx), tid);
      totalSize := totalSize - tx.size;
      txs := txs - {tid};
    }

    method EraseKeyImages(tid: Hash)
      requires KeyImagesOk(txs, keyImages) && tid in txs
      modifies this`keyImages
      ensures keyImages == old(keyImages) - (set ki | ki in txs[tid].keyImages)
    {
      var kis := txs[tid].keyImages;
      ghost var erased := {};
      for i := 0 to |kis|
        invariant keyImages == old(keyImages) - erased
        invariant erased == set ki | ki in kis[..i]
      {
        assert kis[i] !in erased && kis[i] in keyImages; // erasing it succeeds
        keyImages := keyImages - {kis[i]};
        erased := erased + {kis[i]};
        assert kis[..i + 1] == kis[..i] + [kis[i]];
      }
      assert kis[..|kis|] == kis;
    }

    /** Whether the fee is too low for a pool that is full, or for the first transaction that would have to make way. */
    method FeeIsTooLow(c: Candidate) returns (low: bool)
      requires Valid()
      ensures !low && totalSize >= MAX_POOL_SIZE ==> forall t | IsLowest(txs, t) :: !Outranked(c, t, txs[t])
    {
      hide SizeOf, FeePerByte, Lower;
      IsIndexedByKeyImage(Content(), spent);
      if txs != map[] {
        var t, fee := MinimumFee();
        if totalSize >= MAX_POOL_SIZE && Outranked(c, t, txs[t]) {
          return true;
        }
        forall u | IsLowest(txs, u)
          ensures u == t
        {
          LowestIsUnique(txs, t, u);
        }
      }
      for i := 0 to |c.tx.keyImages| {
        var ki := c.tx.keyImages[i];
        if ki in keyImages {
          return Outranked(c, keyImages[ki], txs[keyImages[ki]]);
        }
      }
      return false;
    }

    /** Removes the transactions that share a key image with c, unless one of them is worth more. */
    method Displace(c: Candidate) returns (ok: bool)
      requires Valid() && c.tid !in txs
      modifies this`txs, this`keyImages, this`fees, this`totalSize
      ensures Valid() && Displaced(old(txs), txs, c)
      ensures ok ==> forall ki <- c.tx.keyImages :: ki !in keyImages
    {
      hide PoolOk, Bounded, Outranked, Outranks, SharesKeyImage, Displaced, Without;
      NothingDisplaced(txs, c);
      var todo := set ki | ki in c.tx.keyImages;
      while todo != {}
        invariant Valid() && Displaced(old(txs), txs, c) && c.tid !in txs
        invariant todo <= (set ki | ki in c.tx.keyImages)
        invariant forall ki <- c.tx.keyImages | ki !in todo :: ki !in keyImages
      {
        var ki :| ki in todo;
        todo := todo - {ki};
        if ki in keyImages {
          IsIndexedByKeyImage(Content(), spent);
          var t := keyImages[ki];
          if Outranked(c, t, txs[t]) {
            return false;
          }
          OneOutranks(c, t, txs[t]);
          DisplaceOne(old(txs), txs, c, t, ki);
          KeyImagesShrink(Content(), spent, t);
          RemoveFromPool(t);
        }
      }
      return true;
    }

    method Insert(c: Candidate)
      requires PoolOk(Content(), spent) && c.tid !in txs && c.tx.size > 0 && DistinctKeyImages(c.tx.keyImages)
      requires forall ki <- c.tx.keyImages :: ki !in keyImages && ki !in spent
      modifies this`txs, this`keyImages, this`fees, this`totalSize
      ensures PoolOk(Content(), spent) && txs == old(txs)[c.tid := c.tx] && totalSize == old(totalSize) + c.tx.size
    {
      hide PoolOk, FeePerByte, Filed, DistinctKeyImages, Named;
      WithIsOk(Content(), spent, c.tid, c.tx);
      keyImages := keyImages + Named(c.tx.keyImages, c.tid);
      txs := txs[c.tid := c.tx];
      fees := Filed(fees, FeePerByte(c.tx), c.tid);
      totalSize := totalSize + c.tx.size;
    }

    /** Drops the lowest transactions while the pool stays at its maximum without them. The one just inserted stays. */
    method DropExcess(c: Candidate, ghost before: Pool)
      requires PoolOk(Content(), spent) && c.tid in txs && txs[c.tid] == c.tx
      requires PoolOk(before, spent) && Bounded(before) && c.tid !in before.txs && PartOf(txs - {c.tid}, before.txs)
      requires before.totalSize >= MAX_POOL_SIZE ==>
               forall t | IsLowest(before.txs, t) :: !Outranked(c, t, before.txs[t])
      modifies this`txs, this`keyImages, this`fees, this`totalSize
      ensures Valid() && Dropped(old(txs), txs, totalSize) && c.tid in txs && txs[c.tid] == c.tx
    {
      NothingDropped(txs, totalSize);
      hide KeyImagesOk, FeesOk, Bounded, SizeOf, FeePerByte, Dropped, Without, Outranked, Outranks;
      while totalSize > MAX_POOL_SIZE
        invariant PoolOk(Content(), spent) && c.tid in txs && txs[c.tid] == c.tx && PartOf(txs - {c.tid}, before.txs)
        invariant Dropped(old(txs), txs, totalSize)
        decreases |txs|
      {
        var t, fee := MinimumFee();
        if totalSize < MAX_POOL_SIZE + txs[t].size {
          LowestIsBounded(Content(), t);
          return;
        }
        if t == c.tid {
          NeverDropsItself(before, spent, c, txs);
        }
        DropOne(old(txs), txs, totalSize, t);
        assert (txs - {t}).Keys == txs.Keys - {t};
        RemoveFromPool(t);
      }
      SmallIsBounded(Content(), spent);
    }

    /** Offers a transaction to the pool. If it is broadcast it is in the pool and stays there; what had to make way
        shares a key image with it or is worth less than everything that stays. */
    method AddTransaction(c: Candidate) returns (r: AddResult)
      requires Valid() && CandidateOk(c)
      modifies this`txs, this`keyImages, this`fees, this`totalSize
      ensures Valid()
      ensures r.AlreadyInPool? <==> c.tid in old(txs)
      ensures r.BroadcastAll? ==> c.tid in txs && txs[c.tid] == c.tx && c.validated && c.redone
      ensures r.BroadcastAll? ==> forall ki <- c.tx.keyImages :: ki !in spent
      ensures r.BroadcastAll? ==> exists middle: Txs ::
                Displaced(old(txs), middle, c) && c.tid !in middle && Dropped(middle[c.tid := c.tx], txs, totalSize)
      ensures r.IncreaseFee? ==> Displaced(old(txs), txs, c)
      ensures !r.BroadcastAll? && !r.IncreaseFee? ==> Content() == old(Content())
    {
      hide PoolOk, Bounded, Outranked, Displaced, Dropped, SizeOf, FeePerByte;
      if c.tid in txs {
        return AlreadyInPool;
      }
      NothingDisplaced(txs, c);
      var low := FeeIsTooLow(c);
      if low {
        return IncreaseFee;
      }
      for i := 0 to |c.tx.keyImages|
        invariant forall ki <- c.tx.keyImages[..i] :: ki !in spent
      {
        if c.tx.keyImages[i] in spent {
          return OutputAlreadySpent;
        }
        assert c.tx.keyImages[..i + 1] == c.tx.keyImages[..i] + [c.tx.keyImages[i]];
      }
      assert c.tx.keyImages[..|c.tx.keyImages|] == c.tx.keyImages;
      if !c.validated {
        return Ban;
      }
      if !c.redone {
        return FailedToRedo;
      }
      var ok := Displace(c);
      if !ok {
        return IncreaseFee;
      }
      ghost var middle := txs;
      DisplacedIsPart(old(txs), txs, c);
      Insert(c);
      assert txs - {c.tid} == middle;
      DropExcess(c, old(Content()));
      return BroadcastAll;
    }

    /** After a reorganization. If blocks were undone, everything in the pool is offered again, in the order of the
        hashes; then so are the transactions of the undone blocks. */
    method OnReorganization(undone: map<Hash, Candidate>, undoneBlocks: bool, verdicts: map<Hash, Candidate>)
      requires Valid()
      requires forall t <- undone :: undone[t].tid == t && CandidateOk(undone[t])
      requires forall t <- txs :: t in verdicts && verdicts[t].tid == t && verdicts[t].tx == txs[t]
      modifies this`txs, this`keyImages, this`fees, this`totalSize
      ensures Valid()
      ensures forall t <- txs :: (t in old(txs) && txs[t] == old(txs)[t]) || (t in undone && txs[t] == undone[t].tx)
    {
      hide PoolOk, Bounded, CandidateOk;
      CandidatesAreOk(Content(), spent, verdicts);
      if undoneBlocks {
        var again := map t | t in txs :: verdicts[t];
        Clear();
        OfferAll(again);
      }
      OfferAll(undone);
    }

    method OfferAll(cs: map<Hash, Candidate>)
      requires Valid() && forall t <- cs :: cs[t].tid == t && CandidateOk(cs[t])
      modifies this`txs, this`keyImages, this`fees, this`totalSize
      ensures Valid() && forall t <- txs :: (t in old(txs) && txs[t] == old(txs)[t]) || (t in cs && txs[t] == cs[t].tx)
    {
      hide PoolOk, Bounded, CandidateOk;
      var todo := cs.Keys;
      while todo != {}
        invariant Valid() && todo <= cs.Keys
        invariant forall t <- txs :: (t in old(txs) && txs[t] == old(txs)[t]) || (t in cs && txs[t] == cs[t].tx)
      {
        LeastExists(todo);
        var t :| t in todo && forall u <- todo :: t <= u;
        todo := todo - {t};
        var _ := Offer(cs[t]);
      }
    }

    method Clear()
      modifies this`txs, this`keyImages, this`fees, this`totalSize
      ensures Valid() && txs == map[]
    {
      EmptyIsOk(spent);
      txs, keyImages, fees, totalSize := map[], map[], map[], 0;
    }

    method Offer(c: Candidate) returns (r: AddResult)
      requires Valid() && CandidateOk(c)
      modifies this`txs, this`keyImages, this`fees, this`totalSize
      ensures Valid() && forall t <- txs :: (t in old(txs) && txs[t] == old(txs)[t]) || (t == c.tid && txs[t] == c.tx)
    {
      hide Valid, CandidateOk, SharesKeyImage, Outranks, Lower, FeePerByte;
      r := AddTransaction(c);
    }

    /** A block spends a key image: the transaction of the pool that uses it is gone. */
    method StoreKeyImage(ki: KeyImage)
      requires Valid() && ki !in spent
      modifies this
      ensures Valid() && spent == old(spent) + {ki}
      ensures txs == if ki in old(keyImages) then old(txs) - {old(keyImages)[ki]} else old(txs)
    {
      hide SizeOf, FeePerByte, Bounded, FeesOk, DistinctKeyImages;
      IsIndexedByKeyImage(Content(), spent);
      if ki in keyImages {
        KeyImagesShrink(Content(), spent, keyImages[ki]);
        RemoveFromPool(keyImages[ki]);
      }
      spent := spent + {ki};
    }

    method DeleteKeyImage(ki: KeyImage)
      requires Valid() && ki in spent
      modifies this`spent
      ensures Valid() && spent == old(spent) - {ki}
    {
      hide SizeOf, FeePerByte, Bounded, FeesOk, KeyImagesOk;
      spent := spent - {ki};
    }
  }

  lemma {:induction false} CandidatesAreOk(p: Pool, spent: set<KeyImage>, verdicts: map<Hash, Candidate>)
    requires PoolOk(p, spent) && forall t <- p.txs :: t in verdicts && verdicts[t].tx == p.txs[t]
    ensures forall t <- p.txs :: CandidateOk(verdicts[t])
  {
    hide FeesOk, SizeOf;
  }

  lemma {:induction false} EmptyIsOk(spent: set<KeyImage>)
    ensures PoolOk(EMPTY_POOL, spent) && Bounded(EMPTY_POOL)
  {
  }

  lemma {:induction false} IsIndexedByKeyImage(p: Pool, spent: set<KeyImage>)
    requires PoolOk(p, spent)
    ensures FeesOk(p.txs, p.fees)
    ensures forall ki <- p.keyImages :: p.keyImages[ki] in p.txs && ki in p.txs[p.keyImages[ki]].keyImages
  {
  }

  lemma {:induction false} KeyImagesShrink(p: Pool, spent: set<KeyImage>, t: Hash)
    requires PoolOk(p, spent) && t in p.txs
    ensures Without(p, t).keyImages == p.keyImages - (set ki | ki in p.txs[t].keyImages)
  {
    WithoutIsOk(p, spent, t);
  }

  lemma {:induction false} OneOutranks(c: Candidate, t: Hash, tx: PoolTx)
    requires c.tid != t && !Outranked(c, t, tx)
    ensures Outranks(c, t, tx)
  {
  }

  lemma {:induction false} NothingDisplaced(txs: Txs, c: Candidate)
    ensures Displaced(txs, txs, c)
  {
  }

  lemma {:induction false} NothingDropped(txs: Txs, totalSize: int)
    ensures Dropped(txs, txs, totalSize)
  {
  }

  lemma {:induction false} DisplacedIsPart(was: Txs, now: Txs, c: Candidate)
    requires Displaced(was, now, c)
    ensures PartOf(now, was)
  {
  }
}
