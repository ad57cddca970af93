/** Every change the wallet makes to its indexes keeps them in agreement. */
module WalletProofs {
  import opened ChainTypes
  import opened WalletUndo
  import opened WalletIndexes

  // ---- balances ----

  ghost predicate SameOffBalances(db: Db, db': Db) {
    forall k: Key {:trigger k in db'} :: !k.BalanceKey? ==> (k in db' <==> k in db) && (k in db' ==> db'[k] == db[k])
  }

  predicate NonNegative(b: Balance) {
    && b.spendable >= 0 && b.spendableDust >= 0 && b.locked >= 0
    && b.spendableOutputs >= 0 && b.spendableDustOutputs >= 0 && b.lockedOutputs >= 0
  }

  /** An output without amount still counts as one, so a balance is dropped only when it is all zero. */
  lemma {:induction false} WithBalanceReads(db: Db, a: Address, b: Balance, c: Address)
    requires NonNegative(b)
    ensures BalanceAt(WithBalance(db, a, b), c) == if c == a then b else BalanceAt(db, c)
    ensures SameOffBalances(db, WithBalance(db, a, b))
  {
  }

  lemma {:induction false} ModifyBalanceReads(db: Db, o: WalletOutput, lockedOp: int, spendableOp: int, c: Address)
    requires o.address != EVERYTHING
    requires NonNegative(Combine(BalanceAt(db, o.address), o, lockedOp, spendableOp))
    requires NonNegative(Combine(BalanceAt(db, EVERYTHING), o, lockedOp, spendableOp))
    ensures BalanceAt(ModifyBalance(db, o, lockedOp, spendableOp), c) ==
            if c == o.address || c == EVERYTHING then Combine(BalanceAt(db, c), o, lockedOp, spendableOp)
                else BalanceAt(db, c)
    ensures SameOffBalances(db, ModifyBalance(db, o, lockedOp, spendableOp))
  {
    var b := Combine(BalanceAt(db, o.address), o, lockedOp, spendableOp);
    WithBalanceReads(db, o.address, b, c);
    WithBalanceReads(WithBalance(db, o.address, b), EVERYTHING,
        Combine(BalanceAt(db, EVERYTHING), o, lockedOp, spendableOp), c);
  }

  lemma {:induction false} TallyNonNegative(u: set<WalletOutput>, l: set<WalletOutput>)
    ensures NonNegative(Tally(u, l))
  {
    SumNonNegative(Dust(u, false));
    SumNonNegative(Dust(u, true));
    SumNonNegative(l);
  }

  lemma {:induction false} TallyAddUnspentOf(u: set<WalletOutput>, l: set<WalletOutput>, o: WalletOutput, a: Address)
    requires o !in u && o.address != EVERYTHING
    ensures Tally(Of(u + {o}, a), Of(l, a)) ==
            if a == o.address || a == EVERYTHING then Combine(Tally(Of(u, a), Of(l, a)), o, 0, 1)
                else Tally(Of(u, a), Of(l, a))
  {
    if a == o.address || a == EVERYTHING {
      TallyAddUnspent(Of(u, a), Of(l, a), o);
      assert Of(u + {o}, a) == Of(u, a) + {o};
    } else {
      assert Of(u + {o}, a) == Of(u, a);
    }
  }

  lemma {:induction false} TallyAddLockedOf(u: set<WalletOutput>, l: set<WalletOutput>, o: WalletOutput, a: Address)
    requires o !in l && o.address != EVERYTHING
    ensures Tally(Of(u, a), Of(l + {o}, a)) ==
            if a == o.address || a == EVERYTHING then Combine(Tally(Of(u, a), Of(l, a)), o, 1, 0)
                else Tally(Of(u, a), Of(l, a))
  {
    if a == o.address || a == EVERYTHING {
      TallyAddLocked(Of(u, a), Of(l, a), o);
      assert Of(l + {o}, a) == Of(l, a) + {o};
    } else {
      assert Of(l + {o}, a) == Of(l, a);
    }
  }

  /** The balance entries of db' are those of db with o added to or taken from one of the two sums. */
  ghost predicate BalancesModified(db: Db, db': Db, o: WalletOutput, lockedOp: int, spendableOp: int) {
    forall a: Address :: BalanceAt(db', a) == BalanceAt(ModifyBalance(db, o, lockedOp, spendableOp), a)
  }

  lemma {:induction false} BalancedAfterAddUnspent(db: Db, db': Db, o: WalletOutput)
    requires Balanced(db) && o.address != EVERYTHING && o !in Unspents(db)
    requires Unspents(db') == Unspents(db) + {o} && Lockeds(db') == Lockeds(db)
    requires BalancesModified(db, db', o, 0, 1)
    ensures Balanced(db')
  {
    forall a: Address
      ensures BalanceAt(db', a) == Tally(Of(Unspents(db'), a), Of(Lockeds(db'), a))
    {
      TallyNonNegative(Of(Unspents(db), o.address), Of(Lockeds(db), o.address));
      TallyNonNegative(Of(Unspents(db), EVERYTHING), Of(Lockeds(db), EVERYTHING));
      ModifyBalanceReads(db, o, 0, 1, a);
      TallyAddUnspentOf(Unspents(db), Lockeds(db), o, a);
    }
  }

  lemma {:induction false} BalancedAfterRemoveUnspent(db: Db, db': Db, o: WalletOutput)
    requires Balanced(db) && o.address != EVERYTHING && o in Unspents(db)
    requires Unspents(db') == Unspents(db) - {o} && Lockeds(db') == Lockeds(db)
    requires BalancesModified(db, db', o, 0, -1)
    ensures Balanced(db')
  {
    assert Unspents(db') + {o} == Unspents(db);
    forall a: Address
      ensures BalanceAt(db', a) == Tally(Of(Unspents(db'), a), Of(Lockeds(db'), a))
    {
      TallyAddUnspentOf(Unspents(db'), Lockeds(db'), o, o.address);
      TallyAddUnspentOf(Unspents(db'), Lockeds(db'), o, EVERYTHING);
      TallyAddUnspentOf(Unspents(db'), Lockeds(db'), o, a);
      TallyNonNegative(Of(Unspents(db'), o.address), Of(Lockeds(db'), o.address));
      TallyNonNegative(Of(Unspents(db'), EVERYTHING), Of(Lockeds(db'), EVERYTHING));
      CombineBack(Tally(Of(Unspents(db'), o.address), Of(Lockeds(db'), o.address)), o, 0, 1);
      CombineBack(Tally(Of(Unspents(db'), EVERYTHING), Of(Lockeds(db'), EVERYTHING)), o, 0, 1);
      ModifyBalanceReads(db, o, 0, -1, a);
    }
  }

  lemma {:induction false} CombineBack(b: Balance, o: WalletOutput, lockedOp: int, spendableOp: int)
    ensures Combine(Combine(b, o, lockedOp, spendableOp), o, -lockedOp, -spendableOp) == b
  {
    assert lockedOp * o.amount + (-lockedOp) * o.amount == 0;
    assert spendableOp * o.amount + (-spendableOp) * o.amount == 0;
  }

  lemma {:induction false} BalancedAfterAddLocked(db: Db, db': Db, o: WalletOutput)
    requires Balanced(db) && o.address != EVERYTHING && o !in Lockeds(db)
    requires Unspents(db') == Unspents(db) && Lockeds(db') == Lockeds(db) + {o}
    requires BalancesModified(db, db', o, 1, 0)
    ensures Balanced(db')
  {
    forall a: Address
      ensures BalanceAt(db', a) == Tally(Of(Unspents(db'), a), Of(Lockeds(db'), a))
    {
      TallyNonNegative(Of(Unspents(db), o.address), Of(Lockeds(db), o.address));
      TallyNonNegative(Of(Unspents(db), EVERYTHING), Of(Lockeds(db), EVERYTHING));
      ModifyBalanceReads(db, o, 1, 0, a);
      TallyAddLockedOf(Unspents(db), Lockeds(db), o, a);
    }
  }

  lemma {:induction false} BalancedAfterRemoveLocked(db: Db, db': Db, o: WalletOutput)
    requires Balanced(db) && o.address != EVERYTHING && o in Lockeds(db)
    requires Unspents(db') == Unspents(db) && Lockeds(db') == Lockeds(db) - {o}
    requires BalancesModified(db, db', o, -1, 0)
    ensures Balanced(db')
  {
    assert Lockeds(db') + {o} == Lockeds(db);
    forall a: Address
      ensures BalanceAt(db', a) == Tally(Of(Unspents(db'), a), Of(Lockeds(db'), a))
    {
      TallyAddLockedOf(Unspents(db'), Lockeds(db'), o, o.address);
      TallyAddLockedOf(Unspents(db'), Lockeds(db'), o, EVERYTHING);
      TallyAddLockedOf(Unspents(db'), Lockeds(db'), o, a);
      TallyNonNegative(Of(Unspents(db'), o.address), Of(Lockeds(db'), o.address));
      TallyNonNegative(Of(Unspents(db'), EVERYTHING), Of(Lockeds(db'), EVERYTHING));
      CombineBack(Tally(Of(Unspents(db'), o.address), Of(Lockeds(db'), o.address)), o, 1, 0);
      CombineBack(Tally(Of(Unspents(db'), EVERYTHING), Of(Lockeds(db'), EVERYTHING)), o, 1, 0);
      ModifyBalanceReads(db, o, -1, 0, a);
    }
  }

  // ---- the sets of outputs after a change ----

  lemma {:induction false} UnspentsMember(db: Db, origin: Origin, o: WalletOutput)
    requires UnspentOk(db, origin)
    ensures o in Unspents(db) <==> UnspentAt(db, PlaceOf(o)) == Some(o)
  {
    if o in Unspents(db) {
      var k :| k in db.Keys && k.UnspentKey? && db[k].OutputValue? && db[k].output == o;
      assert k == UnspentKey(k.place);
    }
    if UnspentAt(db, PlaceOf(o)) == Some(o) {
      assert UnspentKey(PlaceOf(o)) in db.Keys;
    }
  }

  lemma {:induction false} LockedsMember(db: Db, origin: Origin, o: WalletOutput)
    requires LockedOk(db, origin)
    ensures o in Lockeds(db) <==> LockKeyOf(o) in db && db[LockKeyOf(o)] == OutputValue(o)
  {
    if o in Lockeds(db) {
      var k :| k in db.Keys && k.LockedKey? && db[k].OutputValue? && db[k].output == o;
      assert k == LockedKey(k.byHeight, k.moment, k.amount, k.globalIndex);
    }
    if LockKeyOf(o) in db && db[LockKeyOf(o)] == OutputValue(o) {
      assert LockKeyOf(o) in db.Keys;
    }
  }

  // ---- what each change does to the entries other than balances ----

  lemma {:induction false} ModifyBalanceFrame(db: Db, o: WalletOutput, lockedOp: int, spendableOp: int)
    ensures SameOffBalances(db, ModifyBalance(db, o, lockedOp, spendableOp))
  {
  }

  datatype Change = Insert | Remove | Lock | Release

  function Changed(db: Db, c: Change, o: WalletOutput): Db {
    match c
    case Insert => UpdateKeyImage(AddUnspent(db, o), o.keyImage, PlaceOf(o))
    case Remove => RemoveUnspent(db, o)
    case Lock => AddLocked(db, o)
    case Release => RemoveLocked(db, o)
  }

  /** The entry of a key after a change, for every key but the balances. */
  function Entry(db: Db, c: Change, o: WalletOutput, k: Key): Option<Value> {
    match c
    case Insert =>
      if k == UnspentKey(PlaceOf(o)) then Some(OutputValue(o))
      else if k == AddressKey(o.address, PlaceOf(o)) then Some(NoValue)
      else if o.keyImage != NO_KEY_IMAGE && k == KeyImageKey(o.keyImage) then Some(PlaceValue(PlaceOf(o)))
      else Lookup(db, k)
    case Remove =>
      if k == UnspentKey(PlaceOf(o)) || k == AddressKey(o.address, PlaceOf(o)) then None else Lookup(db, k)
    case Lock =>
      if k == LockKeyOf(o) then Some(OutputValue(o))
      else if o.keyImage != NO_KEY_IMAGE && k == ImageKeyOf(o) then Some(MomentValue(o.unlockTime))
      else Lookup(db, k)
    case Release =>
      if k == LockKeyOf(o) || (o.keyImage != NO_KEY_IMAGE && k == ImageKeyOf(o)) then None else Lookup(db, k)
  }

  ghost predicate Effect(db: Db, db': Db, c: Change, o: WalletOutput) {
    forall k: Key {:trigger k in db'} :: !k.BalanceKey? ==>
      (k in db' <==> Entry(db, c, o, k).Some?) && (k in db' ==> db'[k] == Entry(db, c, o, k).value)
  }

  function LockedOp(c: Change): int {
    match c case Lock => 1 case Release => -1 case _ => 0
  }

  function SpendableOp(c: Change): int {
    match c case Insert => 1 case Remove => -1 case _ => 0
  }

  lemma {:induction false} ChangeEffect(db: Db, c: Change, o: WalletOutput)
    ensures Effect(db, Changed(db, c, o), c, o)
    ensures BalancesModified(db, Changed(db, c, o), o, LockedOp(c), SpendableOp(c))
  {
    ModifyBalanceFrame(db, o, LockedOp(c), SpendableOp(c));
  }

  /** What a change does to one entry of the lock index, and of the index of unlocked outputs. */
  lemma {:induction false} EffectOn(db: Db, db': Db, c: Change, o: WalletOutput, k: Key)
    requires Effect(db, db', c, o) && (k.LockedKey? || k.UnlockedKey?)
    ensures k.LockedKey? ==> (k in db' <==> if k == LockKeyOf(o) then c.Lock? || (k in db && !c.Release?) else k in db)
    ensures k.UnlockedKey? ==> (k in db' <==> k in db) && (k in db ==> db'[k] == db[k])
  {
    assert k in db' <==> Entry(db, c, o, k).Some?;
  }

  // ---- each change keeps the indexes in agreement ----

  /** Nothing in the database refers to this output yet. */
  ghost predicate Absent(db: Db, o: WalletOutput) {
    && UnspentKey(PlaceOf(o)) !in db && LockKeyOf(o) !in db
    && (forall h: Height :: UnlockedKey(h, o.amount, o.globalIndex) !in db)
    && (forall ki: KeyImage :: PlaceByKeyImage(db, ki) != Some(PlaceOf(o)))
  }

  lemma {:induction false} FreshIsAbsent(db: Db, origin: Origin, o: WalletOutput)
    requires IndexOk(db, origin) && (o.amount, o.globalIndex) !in origin
    ensures Absent(db, o)
  {
    hide Balanced;
  }

  /** A larger origin, for a new output, changes nothing for the outputs that were there. */
  lemma {:induction false} OriginGrows(db: Db, origin: Origin, o: WalletOutput)
    requires IndexOk(db, origin) && (o.amount, o.globalIndex) !in origin
    requires o.address != EVERYTHING && o.height < UINT32_RANGE
    ensures IndexOk(db, origin[(o.amount, o.globalIndex) := o])
  {
    hide Balanced;
    FreshIsAbsent(db, origin, o);
  }

  ghost predicate StructureOk(db: Db, origin: Origin) {
    OriginOk(origin) && UnspentOk(db, origin) && LockedOk(db, origin) && KeyImagesOk(db, origin)
        && UnlockedOk(db, origin)
  }

  /** What the wallet checks, or knows, before it makes a change. */
  ghost predicate Allowed(db: Db, origin: Origin, c: Change, o: WalletOutput) {
    && IsOrigin(origin, o)
    && match c
       case Insert =>
         && Absent(db, o)
         && (o.keyImage != NO_KEY_IMAGE ==> PlaceByKeyImage(db, o.keyImage).None? || SpentImage(db, o.keyImage))
       case Remove => UnspentAt(db, PlaceOf(o)) == Some(o)
       case Lock => Absent(db, o) && o.unlockTime != 0
       case Release => LockKeyOf(o) in db
  }

  lemma {:induction false} ChangeKeepsUnspent(db: Db, db': Db, origin: Origin, c: Change, o: WalletOutput)
    requires StructureOk(db, origin) && Allowed(db, origin, c, o) && Effect(db, db', c, o)
    ensures UnspentOk(db', origin)
  {
    hide UnlockedOk, KeyImagesOk, LockedOk, OriginOk;
  }

  lemma {:induction false} SameLockKey(origin: Origin, o: WalletOutput, x: WalletOutput)
    requires IsOrigin(origin, o) && IsOrigin(origin, x) && LockKeyOf(o) == LockKeyOf(x)
    ensures o == x
  {
  }

  lemma {:induction false} ChangeKeepsLocked(db: Db, db': Db, origin: Origin, c: Change, o: WalletOutput)
    requires StructureOk(db, origin) && Allowed(db, origin, c, o) && Effect(db, db', c, o)
    ensures LockedOk(db', origin)
  {
    hide UnlockedOk, KeyImagesOk;
    forall b: bool, m: nat, a: Amount, g: nat | LockedKey(b, m, a, g) in db'
      ensures db'[LockedKey(b, m, a, g)].OutputValue?
      ensures var x := db'[LockedKey(b, m, a, g)].output;
              LockKeyOf(x) == LockedKey(b, m, a, g) && IsOrigin(origin, x) && x.unlockTime != 0
                  && UnspentKey(PlaceOf(x)) !in db'
    {
    }
    ChangeKeepsLockImages(db, db', origin, c, o);
  }

  lemma {:induction false} ChangeKeepsLockImages(db: Db, db': Db, origin: Origin, c: Change, o: WalletOutput)
    requires StructureOk(db, origin) && Allowed(db, origin, c, o) && Effect(db, db', c, o)
    ensures forall ki: KeyImage, a: Amount, g: nat ::
              LockedImageKey(ki, a, g) in db' <==>
                ki != NO_KEY_IMAGE && (a, g) in origin && origin[(a, g)].keyImage == ki
                && LockKeyOf(origin[(a, g)]) in db'
    ensures forall ki: KeyImage, a: Amount, g: nat ::
              LockedImageKey(ki, a, g) in db' && (a, g) in origin ==>
                db'[LockedImageKey(ki, a, g)] == MomentValue(origin[(a, g)].unlockTime)
  {
    hide UnlockedOk, KeyImagesOk, UnspentOk;
    forall ki: KeyImage, a: Amount, g: nat
      ensures LockedImageKey(ki, a, g) in db' <==>
              ki != NO_KEY_IMAGE && (a, g) in origin && origin[(a, g)].keyImage == ki
                  && LockKeyOf(origin[(a, g)]) in db'
      ensures LockedImageKey(ki, a, g) in db' && (a, g) in origin ==>
              db'[LockedImageKey(ki, a, g)] == MomentValue(origin[(a, g)].unlockTime)
    {
      assert LockedImageKey(ki, a, g) in db <==>
             ki != NO_KEY_IMAGE && (a, g) in origin && origin[(a, g)].keyImage == ki && LockKeyOf(origin[(a, g)]) in db;
      if (a, g) in origin && LockKeyOf(o) == LockKeyOf(origin[(a, g)]) {
        SameLockKey(origin, o, origin[(a, g)]);
      }
    }
  }

  lemma {:induction false} ChangeKeepsKeyImages(db: Db, db': Db, origin: Origin, c: Change, o: WalletOutput)
    requires StructureOk(db, origin) && Allowed(db, origin, c, o) && Effect(db, db', c, o)
    ensures KeyImagesOk(db', origin)
  {
    hide UnlockedOk, OriginOk;
    forall ki: KeyImage | KeyImageKey(ki) in db'
      ensures ki != NO_KEY_IMAGE && db'[KeyImageKey(ki)].PlaceValue?
      ensures var p := db'[KeyImageKey(ki)].place;
              && (p.amount, p.globalIndex) in origin
              && var x := origin[(p.amount, p.globalIndex)];
                 PlaceOf(x) == p && x.keyImage == ki && LockKeyOf(x) !in db'
    {
      var p := db'[KeyImageKey(ki)].place;
      assert c.Lock? ==> PlaceByKeyImage(db, ki) == Some(p);
      if (p.amount, p.globalIndex) in origin && LockKeyOf(o) == LockKeyOf(origin[(p.amount, p.globalIndex)]) {
        SameLockKey(origin, o, origin[(p.amount, p.globalIndex)]);
      }
    }
    forall p: Place | UnspentAt(db', p).Some? && UnspentAt(db', p).value.keyImage != NO_KEY_IMAGE
      ensures PlaceByKeyImage(db', UnspentAt(db', p).value.keyImage) == Some(p)
    {
      assert UnspentKey(p) in db';
    }
  }

  lemma {:induction false} ChangeKeepsUnlocked(db: Db, db': Db, origin: Origin, c: Change, o: WalletOutput)
    requires StructureOk(db, origin) && Allowed(db, origin, c, o) && Effect(db, db', c, o)
    ensures UnlockedOk(db', origin)
  {
    hide UnspentOk, LockedOk, KeyImagesOk, Effect;
    forall h: Height, a: Amount, g: nat
      ensures UnlockedKey(h, a, g) in db' <==> UnlockedKey(h, a, g) in db
      ensures UnlockedKey(h, a, g) in db' ==> db'[UnlockedKey(h, a, g)] == db[UnlockedKey(h, a, g)]
    {
      EffectOn(db, db', c, o, UnlockedKey(h, a, g));
    }
    forall h: Height, a: Amount, g: nat | UnlockedKey(h, a, g) in db'
      ensures (a, g) in origin && LockKeyOf(origin[(a, g)]) !in db'
    {
      assert UnlockedKey(h, a, g) in db;
      EffectOn(db, db', c, o, LockKeyOf(origin[(a, g)]));
      if LockKeyOf(o) == LockKeyOf(origin[(a, g)]) {
        SameLockKey(origin, o, origin[(a, g)]);
      }
    }
  }

  lemma {:induction false} ChangedSets(db: Db, db': Db, origin: Origin, c: Change, o: WalletOutput)
    requires StructureOk(db, origin) && StructureOk(db', origin) && Allowed(db, origin, c, o) && Effect(db, db', c, o)
    ensures c.Insert? ==> o !in Unspents(db) && Unspents(db') == Unspents(db) + {o} && Lockeds(db') == Lockeds(db)
    ensures c.Remove? ==> o in Unspents(db) && Unspents(db') == Unspents(db) - {o} && Lockeds(db') == Lockeds(db)
    ensures c.Lock? ==> o !in Lockeds(db) && Unspents(db') == Unspents(db) && Lockeds(db') == Lockeds(db) + {o}
    ensures c.Release? ==> o in Lockeds(db) && Unspents(db') == Unspents(db) && Lockeds(db') == Lockeds(db) - {o}
  {
    forall x: WalletOutput
      ensures x in Unspents(db') <==> if c.Insert? then x in Unspents(db) || x == o
                                      else if c.Remove? then x in Unspents(db) && x != o else x in Unspents(db)
      ensures x in Lockeds(db') <==> if c.Lock? then x in Lockeds(db) || x == o
                                     else if c.Release? then x in Lockeds(db) && x != o else x in Lockeds(db)
    {
      ChangedUnspents(db, db', origin, c, o, x);
      ChangedLockeds(db, db', origin, c, o, x);
    }
    ChangedUnspents(db, db', origin, c, o, o);
    ChangedLockeds(db, db', origin, c, o, o);
  }

  lemma {:induction false} ChangedUnspents(db: Db, db': Db, origin: Origin, c: Change, o: WalletOutput, x: WalletOutput)
    requires StructureOk(db, origin) && StructureOk(db', origin) && Allowed(db, origin, c, o) && Effect(db, db', c, o)
    ensures x in Unspents(db') <==> if c.Insert? then x in Unspents(db) || x == o
                                    else if c.Remove? then x in Unspents(db) && x != o else x in Unspents(db)
    ensures c.Insert? ==> o !in Unspents(db)
    ensures c.Remove? ==> o in Unspents(db)
  {
    UnspentsMember(db, origin, x);
    UnspentsMember(db', origin, x);
    UnspentsMember(db, origin, o);
    hide KeyImagesOk, UnlockedOk, LockedOk, Unspents;
  }

  lemma {:induction false} ChangedLockeds(db: Db, db': Db, origin: Origin, c: Change, o: WalletOutput, x: WalletOutput)
    requires StructureOk(db, origin) && StructureOk(db', origin) && Allowed(db, origin, c, o) && Effect(db, db', c, o)
    ensures x in Lockeds(db') <==> if c.Lock? then x in Lockeds(db) || x == o
                                   else if c.Release? then x in Lockeds(db) && x != o else x in Lockeds(db)
    ensures c.Lock? ==> o !in Lockeds(db)
    ensures c.Release? ==> o in Lockeds(db)
  {
    LockedsMember(db, origin, x);
    LockedsMember(db', origin, x);
    LockedsMember(db, origin, o);
    hide KeyImagesOk, UnlockedOk, UnspentOk, Lockeds;
    if c.Release? {
      assert LockKeyOf(db[LockKeyOf(o)].output) == LockKeyOf(o);
      SameLockKey(origin, db[LockKeyOf(o)].output, o);
    }
  }

  /** Any allowed change keeps all indexes and all balances in agreement. */
  lemma {:induction false} ChangeKeepsIndexOk(db: Db, origin: Origin, c: Change, o: WalletOutput)
    requires IndexOk(db, origin) && Allowed(db, origin, c, o)
    ensures IndexOk(Changed(db, c, o), origin)
  {
    var db' := Changed(db, c, o);
    hide Balanced;
    ChangeEffect(db, c, o);
    hide Effect, Changed, BalancesModified;
    ChangeKeepsUnspent(db, db', origin, c, o);
    ChangeKeepsLocked(db, db', origin, c, o);
    ChangeKeepsKeyImages(db, db', origin, c, o);
    ChangeKeepsUnlocked(db, db', origin, c, o);
    hide UnspentOk, LockedOk, KeyImagesOk, UnlockedOk;
    ChangedSets(db, db', origin, c, o);
    match c
    case Insert => BalancedAfterAddUnspent(db, db', o);
    case Remove => BalancedAfterRemoveUnspent(db, db', o);
    case Lock => BalancedAfterAddLocked(db, db', o);
    case Release => BalancedAfterRemoveLocked(db, db', o);
  }

  // ---- a spent key image stays spent, and an absent output stays absent ----

  lemma {:induction false} ChangeKeepsSpent(db: Db, origin: Origin, c: Change, o: WalletOutput, ki: KeyImage)
    requires StructureOk(db, origin) && Allowed(db, origin, c, o) && SpentImage(db, ki)
    requires c.Insert? ==> o.keyImage != ki
    ensures SpentImage(Changed(db, c, o), ki)
  {
    var db' := Changed(db, c, o);
    ChangeEffect(db, c, o);
    var p := PlaceByKeyImage(db, ki).value;
    assert KeyImageKey(ki) in db';
    assert UnspentKey(p) in db' ==> UnspentKey(p) in db;
  }

  lemma {:induction false} RemoveKeepsAbsent(db: Db, origin: Origin, c: Change, x: WalletOutput, o: WalletOutput)
    requires StructureOk(db, origin) && (c.Remove? || c.Release?) && Allowed(db, origin, c, x) && IsOrigin(origin, o)
    requires Absent(db, o) || (c.Release? && x == o)
    ensures Absent(Changed(db, c, x), o)
  {
    var db' := Changed(db, c, x);
    ChangeEffect(db, c, x);
    if x == o {
      ReleasedIsAbsent(db, origin, o);
    }
    assert UnspentKey(PlaceOf(o)) in db' ==> UnspentKey(PlaceOf(o)) in db;
    assert LockKeyOf(o) in db' ==> LockKeyOf(o) in db && x != o;
    forall h: Height
      ensures UnlockedKey(h, o.amount, o.globalIndex) !in db'
    {
      assert UnlockedKey(h, o.amount, o.globalIndex) in db' ==> UnlockedKey(h, o.amount, o.globalIndex) in db;
    }
    forall ki: KeyImage
      ensures PlaceByKeyImage(db', ki) != Some(PlaceOf(o))
    {
      assert KeyImageKey(ki) in db' ==> KeyImageKey(ki) in db && db[KeyImageKey(ki)] == db'[KeyImageKey(ki)];
      assert PlaceByKeyImage(db, ki) != Some(PlaceOf(o));
    }
  }

  /** A locked output is nowhere but in the lock indexes. */
  lemma {:induction false} ReleasedIsAbsent(db: Db, origin: Origin, o: WalletOutput)
    requires StructureOk(db, origin) && IsOrigin(origin, o) && LockKeyOf(o) in db
    ensures db[LockKeyOf(o)] == OutputValue(o) && o.unlockTime != 0 && UnspentKey(PlaceOf(o)) !in db
    ensures forall h: Height :: UnlockedKey(h, o.amount, o.globalIndex) !in db
    ensures forall ki: KeyImage :: PlaceByKeyImage(db, ki) != Some(PlaceOf(o))
  {
    assert LockKeyOf(db[LockKeyOf(o)].output) == LockKeyOf(o);
    SameLockKey(origin, db[LockKeyOf(o)].output, o);
    forall ki: KeyImage
      ensures PlaceByKeyImage(db, ki) != Some(PlaceOf(o))
    {
      assert KeyImageKey(ki) in db ==> db[KeyImageKey(ki)].PlaceValue?;
    }
  }

  // ---- incoming outputs ----

  function Total(b: Balance): int {
    b.spendable + b.spendableDust + b.locked
  }

  lemma {:induction false} TotalAfterChange(db: Db, origin: Origin, c: Change, o: WalletOutput)
    requires IndexOk(db, origin) && Allowed(db, origin, c, o)
    ensures Total(BalanceAt(Changed(db, c, o), EVERYTHING)) ==
            Total(BalanceAt(db, EVERYTHING)) + (LockedOp(c) + SpendableOp(c)) * o.amount
  {
    hide Changed, UnspentOk, LockedOk, KeyImagesOk, UnlockedOk, Balanced, Unspents, Lockeds, Sum, Allowed, BalanceAt;
    ChangeKeepsIndexOk(db, origin, c, o);
    var db' := Changed(db, c, o);
    ChangedSetsOf(db, db', origin, c, o);
    TotalIsSum(db);
    TotalIsSum(db');
    if c.Insert? {
      SumAdd(Unspents(db), o);
    } else if c.Remove? {
      SumRemove(Unspents(db), o);
    } else if c.Lock? {
      SumAdd(Lockeds(db), o);
    } else {
      SumRemove(Lockeds(db), o);
    }
  }

  lemma {:induction false} SumAdd(s: set<WalletOutput>, o: WalletOutput)
    requires o !in s
    ensures Sum(s + {o}) == Sum(s) + o.amount
  {
    SumRemove(s + {o}, o);
    assert s + {o} - {o} == s;
  }

  lemma {:induction false} ChangedSetsOf(db: Db, db': Db, origin: Origin, c: Change, o: WalletOutput)
    requires IndexOk(db, origin) && db' == Changed(db, c, o) && IndexOk(db', origin) && Allowed(db, origin, c, o)
    ensures c.Insert? ==> o !in Unspents(db) && Unspents(db') == Unspents(db) + {o} && Lockeds(db') == Lockeds(db)
    ensures c.Remove? ==> o in Unspents(db) && Unspents(db') == Unspents(db) - {o} && Lockeds(db') == Lockeds(db)
    ensures c.Lock? ==> o !in Lockeds(db) && Unspents(db') == Unspents(db) && Lockeds(db') == Lockeds(db) + {o}
    ensures c.Release? ==> o in Lockeds(db) && Unspents(db') == Unspents(db) && Lockeds(db') == Lockeds(db) - {o}
  {
    hide Balanced, UnspentOk, LockedOk, KeyImagesOk, UnlockedOk;
    ChangeEffect(db, c, o);
    ChangedSets(db, db', origin, c, o);
  }

  lemma {:induction false} SumByDust(s: set<WalletOutput>)
    ensures Sum(s) == Sum(Dust(s, false)) + Sum(Dust(s, true))
  {
    SumUnion(Dust(s, false), Dust(s, true));
    assert Dust(s, false) + Dust(s, true) == s;
  }

  lemma {:induction false} TotalIsSum(db: Db)
    requires Balanced(db)
    ensures Total(BalanceAt(db, EVERYTHING)) == Sum(Unspents(db)) + Sum(Lockeds(db))
  {
    hide Unspents, Lockeds, Sum;
    assert BalanceAt(db, EVERYTHING) == Tally(Of(Unspents(db), EVERYTHING), Of(Lockeds(db), EVERYTHING));
    SumByDust(Unspents(db));
  }

  /** What holds after an output has been taken in, or after it has been unlocked. */
  ghost predicate TakenIn(db: Db, r: Db, origin: Origin) {
    && IndexOk(r, origin)
    && forall ki: KeyImage :: SpentImage(db, ki) ==> SpentImage(r, ki)
  }

  /** Taking in an output keeps the indexes in agreement, revives no spent key image, and changes the total of the
      wallet by exactly the amount that it reports. */
  lemma {:induction false} AddIncomingKeepsIndexOk(db: Db, origin: Origin, o: WalletOutput, justUnlocked: bool)
    requires IndexOk(db, origin) && IsOrigin(origin, o) && Absent(db, o)
    ensures var (r, amount) := AddIncoming(db, o, justUnlocked);
            && TakenIn(db, r, origin)
            && Total(BalanceAt(r, EVERYTHING)) == Total(BalanceAt(db, EVERYTHING)) + amount
            && amount <= o.amount
  {
    hide Balanced;
    var known := PlaceByKeyImage(db, o.keyImage);
    if known.Some? && UnspentAt(db, known.value).None? {
    } else if o.unlockTime != 0 && !justUnlocked {
      TakeInByChange(db, origin, Lock, o);
    } else if known.Some? {
      var existing := UnspentAt(db, known.value).value;
      assert UnspentKey(known.value) in db;
      if o.amount > known.value.amount && o.address == existing.address {
        ReplaceKeepsIndexOk(db, origin, existing, o);
      }
    } else {
      TakeInByChange(db, origin, Insert, o);
    }
  }

  lemma {:induction false} TakeInByChange(db: Db, origin: Origin, c: Change, o: WalletOutput)
    requires IndexOk(db, origin) && Allowed(db, origin, c, o)
    requires c.Insert? ==> PlaceByKeyImage(db, o.keyImage).None?
    ensures TakenIn(db, Changed(db, c, o), origin)
    ensures Total(BalanceAt(Changed(db, c, o), EVERYTHING)) ==
            Total(BalanceAt(db, EVERYTHING)) + (LockedOp(c) + SpendableOp(c)) * o.amount
  {
    hide Balanced;
    ChangeKeepsIndexOk(db, origin, c, o);
    TotalAfterChange(db, origin, c, o);
    forall ki: KeyImage | SpentImage(db, ki)
      ensures SpentImage(Changed(db, c, o), ki)
    {
      ChangeKeepsSpent(db, origin, c, o, ki);
    }
  }

  /** A second output with the same key image replaces a smaller one of the same address. */
  lemma {:induction false} ReplaceKeepsIndexOk(db: Db, origin: Origin, existing: WalletOutput, o: WalletOutput)
    requires IndexOk(db, origin) && IsOrigin(origin, o) && IsOrigin(origin, existing) && Absent(db, o)
    requires UnspentAt(db, PlaceOf(existing)) == Some(existing)
             && PlaceByKeyImage(db, o.keyImage) == Some(PlaceOf(existing))
    requires o.amount > existing.amount
    ensures var r := Changed(Changed(db, Remove, existing), Insert, o);
            && TakenIn(db, r, origin)
            && Total(BalanceAt(r, EVERYTHING)) == Total(BalanceAt(db, EVERYTHING)) + o.amount - existing.amount
  {
    hide Balanced;
    var middle := Changed(db, Remove, existing);
    TakeInByChange(db, origin, Remove, existing);
    RemoveKeepsAbsent(db, origin, Remove, existing, o);
    ChangeEffect(db, Remove, existing);
    assert KeyImageKey(o.keyImage) in middle;
    assert UnspentKey(PlaceOf(existing)) !in middle;
    assert SpentImage(middle, o.keyImage);
    ChangeKeepsIndexOk(middle, origin, Insert, o);
    TotalAfterChange(middle, origin, Insert, o);
    forall ki: KeyImage | SpentImage(db, ki)
      ensures SpentImage(Changed(middle, Insert, o), ki)
    {
      ChangeKeepsSpent(middle, origin, Insert, o, ki);
    }
  }

  // ---- unlocking ----

  /** Taking in an output that has just been unlocked touches neither the lock indexes nor the unlocked index. */
  lemma {:induction false} AddUnlockedFrame(db: Db, o: WalletOutput, k: Key)
    requires k.LockedKey? || k.UnlockedKey?
    ensures k in AddIncoming(db, o, true).0 <==> k in db
  {
    var known := PlaceByKeyImage(db, o.keyImage);
    if known.Some? && UnspentAt(db, known.value).Some? {
      var existing := UnspentAt(db, known.value).value;
      ChangeEffect(db, Remove, existing);
      ChangeEffect(Changed(db, Remove, existing), Insert, o);
      assert k in Changed(db, Remove, existing) <==> k in db;
      assert k in Changed(Changed(db, Remove, existing), Insert, o) <==> k in Changed(db, Remove, existing);
    } else {
      ChangeEffect(db, Insert, o);
      assert k in Changed(db, Insert, o) <==> k in db;
    }
  }

  /** Noting an unlocked output, once, disturbs no other index. */
  lemma {:induction false} NoteUnlocked(db: Db, origin: Origin, h: Height, o: WalletOutput, amount: Amount)
    requires IndexOk(db, origin) && IsOrigin(origin, o) && h < UINT32_RANGE && LockKeyOf(o) !in db
    requires forall k: Height :: UnlockedKey(k, o.amount, o.globalIndex) !in db
    ensures var r := db[UnlockedKey(h, o.amount, o.globalIndex) := OutputValue(o.(amount := amount))];
            TakenIn(db, r, origin) && forall a: Address :: BalanceAt(r, a) == BalanceAt(db, a)
  {
    var r := db[UnlockedKey(h, o.amount, o.globalIndex) := OutputValue(o.(amount := amount))];
    hide Balanced;
    StructureWithNote(db, origin, h, o, amount);
    hide LockedOk, KeyImagesOk, UnlockedOk;
    forall x: WalletOutput
      ensures x in Unspents(r) <==> x in Unspents(db)
      ensures x in Lockeds(r) <==> x in Lockeds(db)
    {
      UnspentsMember(db, origin, x);
      UnspentsMember(r, origin, x);
      LockedsMember(db, origin, x);
      LockedsMember(r, origin, x);
    }
    assert Unspents(r) == Unspents(db) && Lockeds(r) == Lockeds(db);
    BalancedAsBefore(db, r);
  }

  lemma {:induction false} StructureWithNote(db: Db, origin: Origin, h: Height, o: WalletOutput, amount: Amount)
    requires IndexOk(db, origin) && IsOrigin(origin, o) && h < UINT32_RANGE && LockKeyOf(o) !in db
    requires forall k: Height :: UnlockedKey(k, o.amount, o.globalIndex) !in db
    ensures var r := db[UnlockedKey(h, o.amount, o.globalIndex) := OutputValue(o.(amount := amount))];
            UnspentOk(r, origin) && LockedOk(r, origin) && KeyImagesOk(r, origin) && UnlockedOk(r, origin)
  {
    hide Balanced;
  }

  lemma {:induction false} BalancedAsBefore(db: Db, r: Db)
    requires Balanced(db) && Unspents(r) == Unspents(db) && Lockeds(r) == Lockeds(db)
    requires forall a: Address :: BalanceAt(r, a) == BalanceAt(db, a)
    ensures Balanced(r)
  {
    hide Tally, Of, BalanceAt, Unspents, Lockeds;
    forall a: Address
      ensures BalanceAt(r, a) == Tally(Of(Unspents(r), a), Of(Lockeds(r), a))
    {
      assert BalanceAt(r, a) == BalanceAt(db, a);
    }
  }

  lemma {:induction false} UnlockKeepsIndexOk(db: Db, origin: Origin, h: Height, o: WalletOutput)
    requires IndexOk(db, origin) && IsOrigin(origin, o) && LockKeyOf(o) in db && h < UINT32_RANGE
    ensures TakenIn(db, Unlock(db, h, o), origin)
    ensures forall x: WalletOutput :: IsOrigin(origin, x) ==>
              (LockKeyOf(x) in Unlock(db, h, o) <==> LockKeyOf(x) in db && x != o)
  {
    hide Balanced;
    var released := Changed(db, Release, o);
    TakeInByChange(db, origin, Release, o);
    RemoveKeepsAbsent(db, origin, Release, o, o);
    AddIncomingKeepsIndexOk(released, origin, o, true);
    var (added, amount) := AddIncoming(released, o, true);
    AddUnlockedFrame(released, o, LockKeyOf(o));
    forall k: Height
      ensures UnlockedKey(k, o.amount, o.globalIndex) !in added
    {
      AddUnlockedFrame(released, o, UnlockedKey(k, o.amount, o.globalIndex));
    }
    NoteUnlocked(added, origin, h, o, amount);
    hide SpentImage;
    forall x: WalletOutput | IsOrigin(origin, x)
      ensures LockKeyOf(x) in Unlock(db, h, o) <==> LockKeyOf(x) in db && x != o
    {
      AddUnlockedFrame(released, o, LockKeyOf(x));
      ReleasedKeys(db, origin, o, x);
    }
  }

  lemma {:induction false} ReleasedKeys(db: Db, origin: Origin, o: WalletOutput, x: WalletOutput)
    requires IsOrigin(origin, o) && IsOrigin(origin, x) && LockKeyOf(o) in db
    ensures LockKeyOf(x) in Changed(db, Release, o) <==> LockKeyOf(x) in db && x != o
  {
    ChangeEffect(db, Release, o);
    if LockKeyOf(x) == LockKeyOf(o) {
      SameLockKey(origin, o, x);
    }
    assert LockKeyOf(x) in Changed(db, Release, o) <==> Entry(db, Release, o, LockKeyOf(x)).Some?;
  }

  ghost predicate DistinctLocked(db: Db, origin: Origin, os: seq<WalletOutput>) {
    && (forall i | 0 <= i < |os| :: IsOrigin(origin, os[i]) && LockKeyOf(os[i]) in db)
    && (forall i, j | 0 <= i < j < |os| :: os[i] != os[j])
  }

  /** Unlocking any list of locked outputs, in any order, keeps the indexes in agreement and empties the lock indexes
      of exactly these outputs. */
  lemma {:induction false} UnlockAllKeepsIndexOk(db: Db, origin: Origin, h: Height, os: seq<WalletOutput>)
    requires IndexOk(db, origin) && DistinctLocked(db, origin, os) && h < UINT32_RANGE
    ensures TakenIn(db, UnlockAll(db, h, os), origin)
    ensures forall x: WalletOutput :: IsOrigin(origin, x) ==>
              (LockKeyOf(x) in UnlockAll(db, h, os) <==> LockKeyOf(x) in db && x !in os)
  {
    hide IndexOk, SpentImage, LockKeyOf, Unlock;
    if os != [] {
      var n := |os| - 1;
      UnlockAllKeepsIndexOk(db, origin, h, os[..n]);
      UnlockKeepsIndexOk(UnlockAll(db, h, os[..n]), origin, h, os[n]);
      assert forall x :: x in os <==> x in os[..n] || x == os[n];
    }
  }

  // ---- incoming key images ----

  ghost predicate LockedWith(db: Db, origin: Origin, ki: KeyImage, o: WalletOutput) {
    IsOrigin(origin, o) && LockKeyOf(o) in db && o.keyImage == ki
  }

  /** After a key image has been taken in, no output that carries it can be spent or unlocked any more. */
  lemma {:induction false} SpendImageKeepsIndexOk(db: Db, origin: Origin, ki: KeyImage)
    requires IndexOk(db, origin)
    ensures TakenIn(db, SpendImage(db, ki), origin)
    ensures PlaceByKeyImage(SpendImage(db, ki), ki) == PlaceByKeyImage(db, ki)
    ensures PlaceByKeyImage(db, ki).Some? ==> SpentImage(SpendImage(db, ki), ki)
    ensures forall x: WalletOutput :: LockKeyOf(x) in SpendImage(db, ki) <==> LockKeyOf(x) in db
  {
    hide Balanced;
    var known := PlaceByKeyImage(db, ki);
    if known.Some? && UnspentAt(db, known.value).Some? {
      var o := UnspentAt(db, known.value).value;
      assert UnspentKey(known.value) in db;
      TakeInByChange(db, origin, Remove, o);
      ChangeEffect(db, Remove, o);
      assert KeyImageKey(ki) in SpendImage(db, ki);
      assert UnspentKey(known.value) !in SpendImage(db, ki);
    }
  }

  /** An unspent output never carries a spent key image: this is what "spent" has to mean for the owner. */
  lemma {:induction false} SpentImageIsNotSpendable(db: Db, origin: Origin, o: WalletOutput)
    requires IndexOk(db, origin) && UnspentAt(db, PlaceOf(o)) == Some(o) && o.keyImage != NO_KEY_IMAGE
    ensures !SpentImage(db, o.keyImage)
    ensures forall x: WalletOutput :: UnspentAt(db, PlaceOf(x)) == Some(x) && x.keyImage == o.keyImage ==> x == o
  {
    hide Balanced;
    assert PlaceByKeyImage(db, o.keyImage) == Some(PlaceOf(o));
  }
}
