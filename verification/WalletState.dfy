/** The wallet cache as an object: the indexes live in a database with an undo log, and every operation is a series of
    logged writes. */
module WalletStates {
  import opened ChainTypes
  import opened WalletUndo
  import opened WalletIndexes
  import opened WalletProofs

  // ---- the order in which outputs are unlocked ----

  predicate Before(x: WalletOutput, y: WalletOutput) {
    x.amount < y.amount || (x.amount == y.amount && x.globalIndex < y.globalIndex)
  }

  ghost predicate InOrder(os: seq<WalletOutput>) {
    forall i, j | 0 <= i < j < |os| :: !Before(os[j], os[i])
  }

  lemma {:induction false} FirstExists(s: set<WalletOutput>)
    requires s != {}
    ensures exists o <- s :: forall x <- s :: !Before(x, o)
    decreases |s|
  {
    var o :| o in s;
    if s - {o} != {} {
      FirstExists(s - {o});
      var p :| p in s - {o} && forall x <- s - {o} :: !Before(x, p);
      var first := if Before(o, p) then o else p;
      forall x | x in s
        ensures !Before(x, first)
      {
        assert x == o || !Before(x, p);
      }
    } else {
      assert s == {o};
    }
  }

  /** os lists exactly the outputs of s, once each, by amount and global index. */
  ghost predicate Lists(os: seq<WalletOutput>, s: set<WalletOutput>) {
    && InOrder(os)
    && (forall o :: o in os <==> o in s)
    && (forall i, j | 0 <= i < j < |os| :: os[i] != os[j])
  }

  // ---- what the operations look for ----

  /** Locked outputs whose unlock moment has come. */
  function Due(db: Db, height: Height, time: nat): set<WalletOutput> {
    set k | k in db.Keys && k.LockedKey? && k.moment <= (if k.byHeight then height else time) && db[k].OutputValue? ::
        db[k].output
  }

  /** The locked output behind an entry of the key image index. */
  function LockedBehind(db: Db, k: Key): Option<WalletOutput>
    requires k in db && k.LockedImageKey?
  {
    if !db[k].MomentValue? then None
    else
      var m := db[k].moment;
      var key := LockedKey(m < MAX_BLOCK_HEIGHT, if m < UINT32_RANGE then m
          else UINT32_RANGE - 1, k.amount, k.globalIndex);
      if key in db && db[key].OutputValue? then Some(db[key].output) else None
  }

  function LockedBy(db: Db, ki: KeyImage): set<WalletOutput> {
    set k | k in db.Keys && k.LockedImageKey? && k.keyImage == ki && LockedBehind(db, k).Some? ::
        LockedBehind(db, k).value
  }

  lemma {:induction false} DueIsLocked(db: Db, origin: Origin, height: Height, time: nat)
    requires LockedOk(db, origin)
    ensures forall o :: o in Due(db, height, time) ==> IsOrigin(origin, o) && LockKeyOf(o) in db
  {
    forall o | o in Due(db, height, time)
      ensures IsOrigin(origin, o) && LockKeyOf(o) in db
    {
      var k :| k in db.Keys && k.LockedKey? && db[k].OutputValue? && db[k].output == o;
      assert k == LockedKey(k.byHeight, k.moment, k.amount, k.globalIndex);
    }
  }

  /** The key image index leads to every locked output with that key image, and to nothing else. */
  lemma {:induction false} LockedByIsLockedWith(db: Db, origin: Origin, ki: KeyImage, o: WalletOutput)
    requires OriginOk(origin) && LockedOk(db, origin) && ki != NO_KEY_IMAGE
    ensures o in LockedBy(db, ki) <==> LockedWith(db, origin, ki, o)
  {
    if o in LockedBy(db, ki) {
      var k :| k in db.Keys && k.LockedImageKey? && k.keyImage == ki && LockedBehind(db, k) == Some(o);
      assert k == LockedImageKey(ki, k.amount, k.globalIndex);
      var x := origin[(k.amount, k.globalIndex)];
      assert db[k] == MomentValue(x.unlockTime);
      assert LockKeyOf(db[LockKeyOf(x)].output) == LockKeyOf(x);
      SameLockKey(origin, db[LockKeyOf(x)].output, x);
    }
    if LockedWith(db, origin, ki, o) {
      var k := LockedImageKey(ki, o.amount, o.globalIndex);
      assert k in db.Keys && db[k] == MomentValue(o.unlockTime);
      assert LockKeyOf(db[LockKeyOf(o)].output) == LockKeyOf(o);
      SameLockKey(origin, db[LockKeyOf(o)].output, o);
      assert LockedBehind(db, k) == Some(o);
    }
  }

  lemma {:induction false} NoneLockedWithoutImage(db: Db, origin: Origin)
    requires LockedOk(db, origin)
    ensures LockedBy(db, NO_KEY_IMAGE) == {}
  {
    forall k: Key | k.LockedImageKey? && k.keyImage == NO_KEY_IMAGE
      ensures k !in db
    {
      assert k == LockedImageKey(NO_KEY_IMAGE, k.amount, k.globalIndex);
    }
  }

  class WalletState {
    const log: WalletDb<Key, Value>
    ghost var origin: Origin
    ghost var origins: seq<Origin> // the origin that went with every entry of the log's history

    /** The indexes agree now, and they agreed at every height that can still be popped to. */
    ghost predicate Valid()
      reads this, log
    {
      && log.Valid()
      && IndexOk(log.db, origin)
      && PastOk(log.history, origins)
    }

    constructor (tailHeight: int)
      ensures Valid() && fresh(log) && log.db == map[] && origin == map[]
    {
      log := new WalletDb(tailHeight);
      origin := map[];
      origins := [map[]];
      new;
      EmptyIsOk();
      assert log.history[0].db == Rollback(log.db, log.current) == map[];
    }

    // ---- single index updates ----

    method WriteBalance(a: Address, b: Balance)
      requires log.Valid()
      modifies log`db, log`current
      ensures log.Valid() && log.db == WithBalance(old(log.db), a, b)
    {
      hide WalletDb.Valid;
      if b.spendable + b.spendableDust + b.locked == 0
          && b.spendableOutputs + b.spendableDustOutputs + b.lockedOutputs == 0 {
        var _ := log.DelWithUndo(BalanceKey(a), false);
      } else {
        var _ := log.PutWithUndo(BalanceKey(a), BalanceValue(b), false);
      }
    }

    method ModifyBalance(o: WalletOutput, lockedOp: int, spendableOp: int)
      requires log.Valid()
      modifies log`db, log`current
      ensures log.Valid() && log.db == WalletIndexes.ModifyBalance(old(log.db), o, lockedOp, spendableOp)
    {
      hide WalletDb.Valid;
      var balance := Combine(BalanceAt(log.db, o.address), o, lockedOp, spendableOp);
      var balance2 := Combine(BalanceAt(log.db, EVERYTHING), o, lockedOp, spendableOp);
      WriteBalance(o.address, balance);
      WriteBalance(EVERYTHING, balance2);
    }

    method AddToUnspentIndex(o: WalletOutput)
      requires log.Valid() && UnspentKey(PlaceOf(o)) !in log.db && AddressKey(o.address, PlaceOf(o)) !in log.db
      modifies log`db, log`current
      ensures log.Valid() && log.db == AddUnspent(old(log.db), o)
    {
      hide WalletDb.Valid, Combine;
      ModifyBalance(o, 0, 1);
      ModifyBalanceFrame(old(log.db), o, 0, 1);
      var ok := log.PutWithUndo(UnspentKey(PlaceOf(o)), OutputValue(o), true);
      assert ok;
      ok := log.PutWithUndo(AddressKey(o.address, PlaceOf(o)), NoValue, true);
      assert ok;
    }

    method RemoveFromUnspentIndex(o: WalletOutput)
      requires log.Valid() && UnspentKey(PlaceOf(o)) in log.db && AddressKey(o.address, PlaceOf(o)) in log.db
      modifies log`db, log`current
      ensures log.Valid() && log.db == RemoveUnspent(old(log.db), o)
    {
      hide WalletDb.Valid, Combine;
      ModifyBalance(o, 0, -1);
      ModifyBalanceFrame(old(log.db), o, 0, -1);
      var ok := log.DelWithUndo(UnspentKey(PlaceOf(o)), true);
      assert ok;
      ok := log.DelWithUndo(AddressKey(o.address, PlaceOf(o)), true);
      assert ok;
    }

    method AddToLockIndex(o: WalletOutput)
      requires log.Valid() && LockKeyOf(o) !in log.db && (o.keyImage != NO_KEY_IMAGE ==> ImageKeyOf(o) !in log.db)
      modifies log`db, log`current
      ensures log.Valid() && log.db == AddLocked(old(log.db), o)
    {
      hide WalletDb.Valid, Combine;
      ModifyBalance(o, 1, 0);
      ModifyBalanceFrame(old(log.db), o, 1, 0);
      var ok := log.PutWithUndo(LockKeyOf(o), OutputValue(o), true);
      assert ok;
      if o.keyImage != NO_KEY_IMAGE {
        ok := log.PutWithUndo(ImageKeyOf(o), MomentValue(o.unlockTime), true);
        assert ok;
      }
    }

    method RemoveFromLockIndex(o: WalletOutput)
      requires log.Valid() && LockKeyOf(o) in log.db && (o.keyImage != NO_KEY_IMAGE ==> ImageKeyOf(o) in log.db)
      modifies log`db, log`current
      ensures log.Valid() && log.db == RemoveLocked(old(log.db), o)
    {
      hide WalletDb.Valid, Combine;
      ModifyBalance(o, -1, 0);
      ModifyBalanceFrame(old(log.db), o, -1, 0);
      var ok := log.DelWithUndo(LockKeyOf(o), true);
      assert ok;
      if o.keyImage != NO_KEY_IMAGE {
        ok := log.DelWithUndo(ImageKeyOf(o), true);
        assert ok;
      }
    }

    method UpdateKeyImage(ki: KeyImage, p: Place, noOverwrite: bool)
      requires log.Valid() && (ki != NO_KEY_IMAGE && noOverwrite ==> KeyImageKey(ki) !in log.db)
      modifies log`db, log`current
      ensures log.Valid() && log.db == WalletIndexes.UpdateKeyImage(old(log.db), ki, p)
    {
      hide WalletDb.Valid;
      if ki == NO_KEY_IMAGE {
        return;
      }
      var ok := log.PutWithUndo(KeyImageKey(ki), PlaceValue(p), noOverwrite);
      assert ok;
    }

    // ---- incoming outputs ----

    method TakeInOutput(o: WalletOutput, justUnlocked: bool) returns (added: Amount)
      requires log.Valid() && IndexOk(log.db, origin) && IsOrigin(origin, o) && Absent(log.db, o)
      modifies log`db, log`current
      ensures log.Valid() && log.db == AddIncoming(old(log.db), o, justUnlocked).0
      ensures added == AddIncoming(old(log.db), o, justUnlocked).1
    {
      hide WalletDb.Valid, Balanced, Combine;
      var known := PlaceByKeyImage(log.db, o.keyImage);
      if known.Some? && UnspentAt(log.db, known.value).None? {
        return 0;
      }
      KeysOfAbsent(log.db, origin, o);
      if o.unlockTime != 0 && !justUnlocked {
        AddToLockIndex(o);
        return o.amount;
      }
      added := o.amount;
      if known.Some? {
        var existing := UnspentAt(log.db, known.value).value;
        if o.amount <= known.value.amount || o.address != existing.address {
          return 0;
        }
        added := o.amount - known.value.amount;
        KeysOfUnspent(log.db, origin, known.value);
        RemoveFromUnspentIndex(existing);
        RemoveKeepsAbsentKeys(old(log.db), existing, o);
      }
      AddToUnspentIndex(o);
      AddUnspentKeepsKeyImages(old(log.db), o);
      UpdateKeyImage(o.keyImage, PlaceOf(o), !known.Some?);
    }

    /** A new output arrives. The caller never presents the same output twice. */
    method AddIncomingOutput(o: WalletOutput) returns (added: Amount)
      requires Valid() && (o.amount, o.globalIndex) !in origin
      requires o.address != EVERYTHING && o.height < UINT32_RANGE
      modifies log`db, log`current, this`origin
      ensures Valid() && origin == old(origin)[(o.amount, o.globalIndex) := o]
      ensures log.db == AddIncoming(old(log.db), o, false).0
      ensures added == AddIncoming(old(log.db), o, false).1
      ensures Total(BalanceAt(log.db, EVERYTHING)) == Total(BalanceAt(old(log.db), EVERYTHING)) + added
      ensures forall ki: KeyImage :: SpentImage(old(log.db), ki) ==> SpentImage(log.db, ki)
    {
      FreshIsAbsent(log.db, origin, o);
      OriginGrows(log.db, origin, o);
      hide WalletDb.Valid, IndexOk, AddIncoming, Absent, SpentImage;
      origin := origin[(o.amount, o.globalIndex) := o];
      AddIncomingKeepsIndexOk(log.db, origin, o, false);
      added := TakeInOutput(o, false);
    }

    // ---- unlocking ----

    method UnlockOne(nowHeight: Height, o: WalletOutput)
      requires log.Valid() && IndexOk(log.db, origin) && IsOrigin(origin, o) && LockKeyOf(o) in log.db
      requires nowHeight < UINT32_RANGE
      modifies log`db, log`current
      ensures log.Valid() && log.db == Unlock(old(log.db), nowHeight, o)
    {
      hide WalletDb.Valid, Balanced, AddIncoming, Combine;
      TakeInByChange(log.db, origin, Release, o);
      RemoveKeepsAbsent(log.db, origin, Release, o, o);
      RemoveFromLockIndex(o);
      ghost var released := log.db;
      assert released == Changed(old(log.db), Release, o);
      var adjusted := TakeInOutput(o, true);
      AddUnlockedFrame(released, o, UnlockedKey(nowHeight, o.amount, o.globalIndex));
      var ok := log.PutWithUndo(UnlockedKey(nowHeight, o.amount, o.globalIndex), OutputValue(o.(amount := adjusted)),
          true);
      assert ok;
    }

    /** Unlocks a set of locked outputs, smaller amounts and indexes first. */
    method UnlockEach(nowHeight: Height, os: set<WalletOutput>) returns (ghost order: seq<WalletOutput>)
      requires log.Valid() && IndexOk(log.db, origin) && nowHeight < UINT32_RANGE
      requires forall o :: o in os ==> IsOrigin(origin, o) && LockKeyOf(o) in log.db
      modifies log`db, log`current
      ensures log.Valid() && Lists(order, os) && log.db == UnlockAll(old(log.db), nowHeight, order)
    {
      hide WalletDb.Valid, IndexOk, LockKeyOf, Unlock;
      order := [];
      var todo := os;
      while todo != {}
        invariant todo <= os && Lists(order, os - todo)
        invariant forall o, x :: o in order && x in todo ==> !Before(x, o)
        invariant log.Valid() && IndexOk(log.db, origin)
        invariant log.db == UnlockAll(old(log.db), nowHeight, order)
        invariant forall o :: o in todo ==> LockKeyOf(o) in log.db
      {
        FirstExists(todo);
        var o :| o in todo && forall x <- todo :: !Before(x, o);
        UnlockKeepsIndexOk(log.db, origin, nowHeight, o);
        UnlockOne(nowHeight, o);
        assert (order + [o])[..|order|] == order;
        order := order + [o];
        todo := todo - {o};
      }
      assert os - todo == os;
    }

    /** Everything whose unlock moment has come becomes spendable. */
    method UnlockDue(nowHeight: Height, now: nat) returns (ghost order: seq<WalletOutput>)
      requires Valid() && nowHeight < UINT32_RANGE
      modifies log`db, log`current
      ensures Valid() && Lists(order, Due(old(log.db), nowHeight, now))
      ensures log.db == UnlockAll(old(log.db), nowHeight, order)
      ensures forall ki: KeyImage :: SpentImage(old(log.db), ki) ==> SpentImage(log.db, ki)
      ensures forall o :: o in order ==> LockKeyOf(o) !in log.db
    {
      var due := Due(log.db, nowHeight, now);
      DueIsLocked(log.db, origin, nowHeight, now);
      hide WalletDb.Valid, IndexOk, UnlockAll, SpentImage, LockKeyOf, Due, Lists, IsOrigin;
      order := UnlockEach(nowHeight, due);
      UnlockedInOrder(old(log.db), origin, nowHeight, due, order);
    }

    // ---- incoming key images ----

    method RemoveByKeyImage(ki: KeyImage) returns (removed: Amount)
      requires log.Valid() && IndexOk(log.db, origin)
      modifies log`db, log`current
      ensures log.Valid() && log.db == SpendImage(old(log.db), ki)
      ensures removed == Total(BalanceAt(old(log.db), EVERYTHING)) - Total(BalanceAt(log.db, EVERYTHING))
    {
      hide WalletDb.Valid, Balanced;
      removed := 0;
      var known := PlaceByKeyImage(log.db, ki);
      if known.Some? && UnspentAt(log.db, known.value).Some? {
        var existing := UnspentAt(log.db, known.value).value;
        removed := existing.amount;
        KeysOfUnspent(log.db, origin, known.value);
        TotalAfterChange(log.db, origin, Remove, existing);
        RemoveFromUnspentIndex(existing);
      }
    }

    /** A key image has been spent: outputs locked under it are unlocked first, and then the one that is unspent is
        removed. Afterwards nothing that carries it is left to spend or to unlock. */
    method AddIncomingKeyImage(height: Height, ki: KeyImage) returns (removed: Amount, ghost order: seq<WalletOutput>)
      requires Valid() && height < UINT32_RANGE
      modifies log`db, log`current
      ensures Valid() && Lists(order, LockedBy(old(log.db), ki))
      ensures log.db == SpendImage(UnlockAll(old(log.db), height, order), ki)
      ensures removed == Total(BalanceAt(UnlockAll(old(log.db), height, order), EVERYTHING))
                         - Total(BalanceAt(log.db, EVERYTHING))
      ensures forall j: KeyImage :: SpentImage(old(log.db), j) ==> SpentImage(log.db, j)
      ensures ki != NO_KEY_IMAGE ==>
                forall o ::
                  !LockedWith(log.db, origin, ki, o) && !(UnspentAt(log.db, PlaceOf(o)) == Some(o) && o.keyImage == ki)
    {
      var found := LockedBy(log.db, ki);
      LockedByAll(log.db, origin, ki);
      hide WalletDb.Valid, IndexOk, UnlockAll, SpentImage, LockKeyOf, LockedBy, Lists, IsOrigin, SpendImage, LockedWith,
          UnspentAt, Total;
      order := UnlockEach(height, found);
      UnlockedInOrder(old(log.db), origin, height, found, order);
      removed := RemoveByKeyImage(ki);
      KeyImageIsTakenIn(old(log.db), origin, height, ki, order);
    }

    // ---- blocks ----

    method PushChain(header: Header)
      requires Valid()
      modifies log, this`origins
      ensures Valid() && log.db == old(log.db) && log.current == map[]
      ensures log.history == old(log.history) + [log.Now()] && origins == old(origins) + [origin]
    {
      hide IndexOk, WalletDb.Valid;
      log.PushChain(header);
      origins := origins + [origin];
    }

    /** Between blocks, popping a block takes the cache back to what it was before that block, and the indexes agree
        there too. */
    method PopChain()
      requires Valid() && log.current == map[] && log.tipHeight + 1 != log.tailHeight
      modifies log, this`origins, this`origin
      ensures Valid() && log.Now() == old(log.history)[|old(log.history)| - 2]
              && origin == old(origins)[|old(origins)| - 2]
      ensures log.current == map[] && log.tipHeight == old(log.tipHeight) - 1
      ensures log.history == old(log.history)[..|old(log.history)| - 1]
    {
      HistoryIsLong();
      hide IndexOk, WalletDb.Valid, Popped;
      log.PopChain();
      origins := origins[..|origins| - 1];
      origin := origins[|origins| - 1];
    }

    lemma {:induction false} HistoryIsLong()
      requires log.Valid() && log.tipHeight + 1 != log.tailHeight
      ensures |log.history| >= 2 && log.tipHeight + 1 != log.tailHeight
    {
    }
  }

  ghost predicate PastOk(history: seq<Snapshot<Key, Value>>, origins: seq<Origin>) {
    |origins| == |history| && forall i | 0 <= i < |origins| :: IndexOk(history[i].db, origins[i])
  }

  lemma {:induction false} EmptyIsOk()
    ensures IndexOk(map[], map[])
  {
    assert Unspents(map[]) == {} && Lockeds(map[]) == {};
    forall a: Address
      ensures BalanceAt(map[], a) == Tally(Of({}, a), Of({}, a))
    {
      assert Of({}, a) == {};
      assert Dust({}, true) == {} && Dust({}, false) == {};
    }
  }

  lemma {:induction false} KeysOfAbsent(db: Db, origin: Origin, o: WalletOutput)
    requires IndexOk(db, origin) && IsOrigin(origin, o) && Absent(db, o)
    ensures AddressKey(o.address, PlaceOf(o)) !in db && ImageKeyOf(o) !in db
  {
    hide Balanced;
  }

  lemma {:induction false} KeysOfUnspent(db: Db, origin: Origin, p: Place)
    requires IndexOk(db, origin) && UnspentAt(db, p).Some?
    ensures var o := UnspentAt(db, p).value;
            && PlaceOf(o) == p && IsOrigin(origin, o) && UnspentKey(p) in db && AddressKey(o.address, p) in db
  {
    hide Balanced;
  }

  lemma {:induction false} RemoveKeepsAbsentKeys(db: Db, existing: WalletOutput, o: WalletOutput)
    requires UnspentKey(PlaceOf(o)) !in db && AddressKey(o.address, PlaceOf(o)) !in db
    ensures UnspentKey(PlaceOf(o)) !in RemoveUnspent(db, existing)
    ensures AddressKey(o.address, PlaceOf(o)) !in RemoveUnspent(db, existing)
  {
    ModifyBalanceFrame(db, existing, 0, -1);
  }

  lemma {:induction false} AddUnspentKeepsKeyImages(db: Db, o: WalletOutput)
    ensures PlaceByKeyImage(db, o.keyImage).None? && !(KeyImageKey(o.keyImage) in db) ==>
            KeyImageKey(o.keyImage) !in AddUnspent(db, o)
  {
    ModifyBalanceFrame(db, o, 0, 1);
  }

  lemma {:induction false} UnlockedInOrder(db: Db, origin: Origin, h: Height, os: set<WalletOutput>,
                                           order: seq<WalletOutput>)
    requires IndexOk(db, origin) && Lists(order, os) && h < UINT32_RANGE
    requires forall o :: o in os ==> IsOrigin(origin, o) && LockKeyOf(o) in db
    ensures IndexOk(UnlockAll(db, h, order), origin)
    ensures forall ki: KeyImage :: SpentImage(db, ki) ==> SpentImage(UnlockAll(db, h, order), ki)
    ensures forall x: WalletOutput :: IsOrigin(origin, x) ==>
              (LockKeyOf(x) in UnlockAll(db, h, order) <==> LockKeyOf(x) in db && x !in order)
    ensures forall o :: o in order ==> LockKeyOf(o) !in UnlockAll(db, h, order)
  {
    hide IndexOk, UnlockAll, SpentImage, LockKeyOf;
    UnlockAllKeepsIndexOk(db, origin, h, order);
  }

  lemma {:induction false} LockedByAll(db: Db, origin: Origin, ki: KeyImage)
    requires IndexOk(db, origin)
    ensures forall o :: o in LockedBy(db, ki) ==> IsOrigin(origin, o) && LockKeyOf(o) in db
    ensures ki != NO_KEY_IMAGE ==> forall o :: o in LockedBy(db, ki) <==> LockedWith(db, origin, ki, o)
  {
    hide Balanced;
    if ki == NO_KEY_IMAGE {
      NoneLockedWithoutImage(db, origin);
    } else {
      forall o
        ensures o in LockedBy(db, ki) <==> LockedWith(db, origin, ki, o)
      {
        LockedByIsLockedWith(db, origin, ki, o);
      }
    }
  }

  /** A key image is taken in: the indexes still agree, no spent key image comes back, and nothing is left that
      carries this one. */
  lemma {:induction false} KeyImageIsTakenIn(db: Db, origin: Origin, h: Height, ki: KeyImage, order: seq<WalletOutput>)
    requires IndexOk(db, origin) && h < UINT32_RANGE && Lists(order, LockedBy(db, ki))
    ensures var r := SpendImage(UnlockAll(db, h, order), ki);
            && IndexOk(r, origin)
            && (forall j: KeyImage :: SpentImage(db, j) ==> SpentImage(r, j))
            && (ki != NO_KEY_IMAGE ==>
                  forall o :: !LockedWith(r, origin, ki, o)
                      && !(UnspentAt(r, PlaceOf(o)) == Some(o) && o.keyImage == ki))
  {
    LockedByAll(db, origin, ki);
    hide Balanced, LockedBy, UnlockAll, SpendImage;
    UnlockedInOrder(db, origin, h, LockedBy(db, ki), order);
    var unlocked := UnlockAll(db, h, order);
    SpendImageKeepsIndexOk(unlocked, origin, ki);
    var r := SpendImage(unlocked, ki);
    if ki != NO_KEY_IMAGE {
      forall o: WalletOutput
        ensures !LockedWith(r, origin, ki, o)
        ensures !(UnspentAt(r, PlaceOf(o)) == Some(o) && o.keyImage == ki)
      {
        hide IndexOk, LockKeyOf, InOrder;
        assert LockedWith(db, origin, ki, o) <==> o in order;
        if UnspentAt(r, PlaceOf(o)) == Some(o) && o.keyImage == ki {
          SpentImageIsNotSpendable(r, origin, o);
          UnspentHasPlace(r, origin, o);
        }
      }
    }
  }

  lemma {:induction false} UnspentHasPlace(db: Db, origin: Origin, o: WalletOutput)
    requires IndexOk(db, origin) && UnspentAt(db, PlaceOf(o)) == Some(o) && o.keyImage != NO_KEY_IMAGE
    ensures PlaceByKeyImage(db, o.keyImage) == Some(PlaceOf(o))
  {
    hide Balanced;
  }
}
