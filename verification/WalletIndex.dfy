/** The indexes that the wallet cache keeps in its database, as functions of the database: unspent and locked outputs,
    recently unlocked ones, known key images, and a balance for every address and for the whole wallet. */
module WalletIndexes {
  import opened ChainTypes

  type Address = nat

  const EVERYTHING: Address := 0 // the empty address string: the whole wallet
  const NO_KEY_IMAGE: KeyImage := 0 // a view-only wallet cannot compute key images

  datatype WalletOutput = WalletOutput(
    amount: Amount, globalIndex: nat, height: Height, unlockTime: nat, keyImage: KeyImage, address: Address, dust: bool)

  datatype Place = Place(height: Height, amount: Amount, globalIndex: nat)

  datatype Balance = Balance(
    spendable: int, spendableDust: int, locked: int,
    spendableOutputs: int, spendableDustOutputs: int, lockedOutputs: int)

  const ZERO := Balance(0, 0, 0, 0, 0, 0)

  datatype Key =
    | BalanceKey(address: Address)
    | KeyImageKey(keyImage: KeyImage)
    | UnspentKey(place: Place)
    | AddressKey(address: Address, place: Place)
    | UnlockedKey(height: Height, amount: Amount, globalIndex: nat)
    | LockedKey(byHeight: bool, moment: nat, amount: Amount, globalIndex: nat)
    | LockedImageKey(keyImage: KeyImage, amount: Amount, globalIndex: nat)

  datatype Value =
    | BalanceValue(balance: Balance)
    | PlaceValue(place: Place)
    | OutputValue(output: WalletOutput)
    | MomentValue(moment: nat)
    | NoValue

  type Db = map<Key, Value>

  function PlaceOf(o: WalletOutput): Place {
    Place(o.height, o.amount, o.globalIndex)
  }

  function LockKeyOf(o: WalletOutput): Key {
    LockedKey(o.unlockTime < MAX_BLOCK_HEIGHT, if o.unlockTime < UINT32_RANGE then o.unlockTime else UINT32_RANGE - 1,
              o.amount, o.globalIndex)
  }

  function ImageKeyOf(o: WalletOutput): Key {
    LockedImageKey(o.keyImage, o.amount, o.globalIndex)
  }

  // ---- balances ----

  function Combine(b: Balance, o: WalletOutput, lockedOp: int, spendableOp: int): Balance {
    var c := b.(locked := b.locked + lockedOp * o.amount, lockedOutputs := b.lockedOutputs + lockedOp);
    if o.dust then
      c.(spendableDust := c.spendableDust + spendableOp * o.amount,
         spendableDustOutputs := c.spendableDustOutputs + spendableOp)
    else
      c.(spendable := c.spendable + spendableOp * o.amount, spendableOutputs := c.spendableOutputs + spendableOp)
  }

  function BalanceAt(db: Db, a: Address): Balance {
    if BalanceKey(a) in db && db[BalanceKey(a)].BalanceValue? then db[BalanceKey(a)].balance else ZERO
  }

  function WithBalance(db: Db, a: Address, b: Balance): Db {
    if b.spendable + b.spendableDust + b.locked == 0
        && b.spendableOutputs + b.spendableDustOutputs + b.lockedOutputs == 0
    then db - {BalanceKey(a)}
    else db[BalanceKey(a) := BalanceValue(b)]
  }

  function ModifyBalance(db: Db, o: WalletOutput, lockedOp: int, spendableOp: int): Db {
    WithBalance(WithBalance(db, o.address, Combine(BalanceAt(db, o.address), o, lockedOp, spendableOp)),
                EVERYTHING, Combine(BalanceAt(db, EVERYTHING), o, lockedOp, spendableOp))
  }

  // ---- index updates ----

  function AddUnspent(db: Db, o: WalletOutput): Db {
    ModifyBalance(db, o, 0, 1)[UnspentKey(PlaceOf(o)) := OutputValue(o)][AddressKey(o.address, PlaceOf(o)) := NoValue]
  }

  function RemoveUnspent(db: Db, o: WalletOutput): Db {
    ModifyBalance(db, o, 0, -1) - {UnspentKey(PlaceOf(o))} - {AddressKey(o.address, PlaceOf(o))}
  }

  function AddLocked(db: Db, o: WalletOutput): Db {
    var r := ModifyBalance(db, o, 1, 0)[LockKeyOf(o) := OutputValue(o)];
    if o.keyImage == NO_KEY_IMAGE then r else r[ImageKeyOf(o) := MomentValue(o.unlockTime)]
  }

  function RemoveLocked(db: Db, o: WalletOutput): Db {
    var r := ModifyBalance(db, o, -1, 0) - {LockKeyOf(o)};
    if o.keyImage == NO_KEY_IMAGE then r else r - {ImageKeyOf(o)}
  }

  function UpdateKeyImage(db: Db, ki: KeyImage, p: Place): Db {
    if ki == NO_KEY_IMAGE then db else db[KeyImageKey(ki) := PlaceValue(p)]
  }

  // ---- reading ----

  function UnspentAt(db: Db, p: Place): Option<WalletOutput> {
    if UnspentKey(p) in db && db[UnspentKey(p)].OutputValue? then Some(db[UnspentKey(p)].output) else None
  }

  function PlaceByKeyImage(db: Db, ki: KeyImage): Option<Place> {
    if KeyImageKey(ki) in db && db[KeyImageKey(ki)].PlaceValue? then Some(db[KeyImageKey(ki)].place) else None
  }

  /** A key image is known, and the output it belongs to is not there any more. */
  predicate SpentImage(db: Db, ki: KeyImage) {
    PlaceByKeyImage(db, ki).Some? && UnspentAt(db, PlaceByKeyImage(db, ki).value).None?
  }

  // ---- taking in outputs and key images ----

  /** What becomes of an output that arrives, or that has just been unlocked, and the amount that it adds. */
  function AddIncoming(db: Db, o: WalletOutput, justUnlocked: bool): (Db, Amount) {
    var known := PlaceByKeyImage(db, o.keyImage);
    if known.Some? && UnspentAt(db, known.value).None? then (db, 0)
    else if o.unlockTime != 0 && !justUnlocked then (AddLocked(db, o), o.amount)
    else if known.Some? then
      var existing := UnspentAt(db, known.value).value;
      if o.amount <= known.value.amount || o.address != existing.address then (db, 0)
      else
        (UpdateKeyImage(AddUnspent(RemoveUnspent(db, existing), o), o.keyImage, PlaceOf(o)),
            o.amount - known.value.amount)
    else (UpdateKeyImage(AddUnspent(db, o), o.keyImage, PlaceOf(o)), o.amount)
  }

  /** Moves an output out of the lock indexes and notes when, with the amount it really added. */
  function Unlock(db: Db, h: Height, o: WalletOutput): Db {
    var (added, amount) := AddIncoming(RemoveLocked(db, o), o, true);
    added[UnlockedKey(h, o.amount, o.globalIndex) := OutputValue(o.(amount := amount))]
  }

  function UnlockAll(db: Db, h: Height, os: seq<WalletOutput>): Db {
    if os == [] then db else Unlock(UnlockAll(db, h, os[..|os| - 1]), h, os[|os| - 1])
  }

  /** Removes the unspent output of a key image, if there is one. */
  function SpendImage(db: Db, ki: KeyImage): Db {
    var known := PlaceByKeyImage(db, ki);
    if known.Some? && UnspentAt(db, known.value).Some? then RemoveUnspent(db, UnspentAt(db, known.value).value) else db
  }

  // ---- the outputs behind the indexes ----

  ghost function Unspents(db: Db): set<WalletOutput> {
    set k | k in db.Keys && k.UnspentKey? && db[k].OutputValue? :: db[k].output
  }

  ghost function Lockeds(db: Db): set<WalletOutput> {
    set k | k in db.Keys && k.LockedKey? && db[k].OutputValue? :: db[k].output
  }

  function Of(s: set<WalletOutput>, a: Address): set<WalletOutput> {
    if a == EVERYTHING then s else set o | o in s && o.address == a
  }

  function Dust(s: set<WalletOutput>, dust: bool): set<WalletOutput> {
    set o | o in s && o.dust == dust
  }

  ghost function Sum(s: set<WalletOutput>): int {
    if s == {} then 0
    else
      var o :| o in s;
      o.amount + Sum(s - {o})
  }

  lemma {:induction false} SumRemove(s: set<WalletOutput>, x: WalletOutput)
    requires x in s
    ensures Sum(s) == x.amount + Sum(s - {x})
    decreases |s|
  {
    var o :| o in s && Sum(s) == o.amount + Sum(s - {o});
    if o != x {
      SumRemove(s - {o}, x);
      SumRemove(s - {x}, o);
      assert s - {o} - {x} == s - {x} - {o};
    }
  }

  lemma {:induction false} SumUnion(s: set<WalletOutput>, t: set<WalletOutput>)
    requires s !! t
    ensures Sum(s + t) == Sum(s) + Sum(t)
    decreases |t|
  {
    if t == {} {
      assert s + t == s;
    } else {
      var x :| x in t;
      SumRemove(t, x);
      SumRemove(s + t, x);
      assert s + t - {x} == s + (t - {x});
      SumUnion(s, t - {x});
    }
  }

  lemma {:induction false} SumNonNegative(s: set<WalletOutput>)
    ensures Sum(s) >= 0
    decreases |s|
  {
    if x :| x in s {
      SumRemove(s, x);
      SumNonNegative(s - {x});
    }
  }

  ghost function Tally(unspent: set<WalletOutput>, locked: set<WalletOutput>): Balance {
    Balance(Sum(Dust(unspent, false)), Sum(Dust(unspent, true)), Sum(locked),
            |Dust(unspent, false)|, |Dust(unspent, true)|, |locked|)
  }

  lemma {:induction false} TallyAddUnspent(u: set<WalletOutput>, l: set<WalletOutput>, o: WalletOutput)
    requires o !in u
    ensures Tally(u + {o}, l) == Combine(Tally(u, l), o, 0, 1)
  {
    assert Dust(u + {o}, o.dust) == Dust(u, o.dust) + {o};
    assert Dust(u + {o}, !o.dust) == Dust(u, !o.dust);
    SumRemove(Dust(u + {o}, o.dust), o);
    assert Dust(u + {o}, o.dust) - {o} == Dust(u, o.dust);
  }

  lemma {:induction false} TallyAddLocked(u: set<WalletOutput>, l: set<WalletOutput>, o: WalletOutput)
    requires o !in l
    ensures Tally(u, l + {o}) == Combine(Tally(u, l), o, 1, 0)
  {
    SumRemove(l + {o}, o);
    assert l + {o} - {o} == l;
  }

  // ---- the invariant ----

  /** Every output ever presented to the wallet, by amount and global index. */
  type Origin = map<(Amount, nat), WalletOutput>

  ghost predicate OriginOk(origin: Origin) {
    forall a: Amount, g: nat :: (a, g) in origin ==>
      var o := origin[(a, g)]; o.amount == a && o.globalIndex == g && o.address != EVERYTHING && o.height < UINT32_RANGE
  }

  ghost predicate IsOrigin(origin: Origin, o: WalletOutput) {
    (o.amount, o.globalIndex) in origin && origin[(o.amount, o.globalIndex)] == o
  }

  /** The two unspent indexes list the same outputs. */
  ghost predicate UnspentOk(db: Db, origin: Origin) {
    && (forall p: Place :: UnspentKey(p) in db ==>
          db[UnspentKey(p)].OutputValue? && var o := db[UnspentKey(p)].output; PlaceOf(o) == p && IsOrigin(origin, o))
    && (forall a: Address, p: Place :: AddressKey(a, p) in db <==>
        UnspentAt(db, p).Some? && UnspentAt(db, p).value.address == a)
  }

  /** The two lock indexes list the same outputs, none of which is unspent. */
  ghost predicate LockedOk(db: Db, origin: Origin) {
    && (forall b: bool, m: nat, a: Amount, g: nat :: LockedKey(b, m, a, g) in db ==>
          && db[LockedKey(b, m, a, g)].OutputValue?
          && var o := db[LockedKey(b, m, a, g)].output;
             LockKeyOf(o) == LockedKey(b, m, a, g) && IsOrigin(origin, o) && o.unlockTime != 0
                 && UnspentKey(PlaceOf(o)) !in db)
    && (forall ki: KeyImage, a: Amount, g: nat :: LockedImageKey(ki, a, g) in db <==>
          ki != NO_KEY_IMAGE && (a, g) in origin && origin[(a, g)].keyImage == ki && LockKeyOf(origin[(a, g)]) in db)
    && (forall ki: KeyImage, a: Amount, g: nat :: LockedImageKey(ki, a, g) in db && (a, g) in origin ==>
          db[LockedImageKey(ki, a, g)] == MomentValue(origin[(a, g)].unlockTime))
  }

  /** A known key image points to the output it belongs to, which is not locked; every unspent output that has a key
      image is pointed to by it. */
  ghost predicate KeyImagesOk(db: Db, origin: Origin) {
    && (forall ki: KeyImage :: KeyImageKey(ki) in db ==>
          && ki != NO_KEY_IMAGE && db[KeyImageKey(ki)].PlaceValue?
          && var p := db[KeyImageKey(ki)].place;
             && (p.amount, p.globalIndex) in origin
             && var o := origin[(p.amount, p.globalIndex)];
                PlaceOf(o) == p && o.keyImage == ki && LockKeyOf(o) !in db)
    && (forall p: Place :: UnspentAt(db, p).Some? && UnspentAt(db, p).value.keyImage != NO_KEY_IMAGE ==>
          PlaceByKeyImage(db, UnspentAt(db, p).value.keyImage) == Some(p))
  }

  /** An output is recorded as unlocked once, with a possibly smaller amount, and is not locked. */
  ghost predicate UnlockedOk(db: Db, origin: Origin) {
    && (forall h: Height, a: Amount, g: nat :: UnlockedKey(h, a, g) in db ==>
          && h < UINT32_RANGE && (a, g) in origin && LockKeyOf(origin[(a, g)]) !in db
          && db[UnlockedKey(h, a, g)].OutputValue?
          && var o := db[UnlockedKey(h, a, g)].output; o == origin[(a, g)].(amount := o.amount))
    && (forall h: Height, k: Height, a: Amount, g: nat :: UnlockedKey(h, a, g) in db && UnlockedKey(k, a, g) in db ==>
        h == k)
  }

  ghost predicate Balanced(db: Db) {
    forall a: Address :: BalanceAt(db, a) == Tally(Of(Unspents(db), a), Of(Lockeds(db), a))
  }

  ghost predicate IndexOk(db: Db, origin: Origin) {
    && OriginOk(origin) && UnspentOk(db, origin) && LockedOk(db, origin) && KeyImagesOk(db, origin)
    && UnlockedOk(db, origin) && Balanced(db)
  }
}
