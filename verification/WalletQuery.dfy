/** What the wallet tells its owner: the balance of an address at a confirmed height, and the outputs it may spend. */
module WalletQueries {
  import opened ChainTypes
  import opened WalletUndo
  import opened WalletIndexes
  import opened WalletProofs
  import opened WalletStates

  const MAX_HEIGHT: Height := UINT32_RANGE - 1
  const MIN_COUNT := 10000

  /** from + 1 in 32 bits: the scan after the last height starts again at zero. */
  function After(from: Height): Height {
    (from + 1) % UINT32_RANGE
  }

  // ---- scanning the indexes ----

  function UnspentKeys(db: Db, a: Address, from: Height, to: Height): set<Key> {
    set k | k in db.Keys && (if a == EVERYTHING then k.UnspentKey? else k.AddressKey? && k.address == a)
            && After(from) <= k.place.height <= to
  }

  function UnlockedKeys(db: Db, a: Address, from: Height, to: Height): set<Key> {
    set k | k in db.Keys && k.UnlockedKey? && After(from) <= k.height <= to && db[k].OutputValue?
            && (a == EVERYTHING || db[k].output.address == a)
  }

  /** The unspent output that an index entry leads to. */
  function Behind(db: Db, k: Key): Option<WalletOutput> {
    match k
    case UnspentKey(p) => UnspentAt(db, p)
    case AddressKey(_, p) => UnspentAt(db, p)
    case UnlockedKey(_, amount, gi) =>
      if k in db && db[k].OutputValue? then UnspentAt(db, Place(db[k].output.height, amount, gi)) else None
    case KeyImageKey(ki) => if PlaceByKeyImage(db, ki).Some? then UnspentAt(db, PlaceByKeyImage(db, ki).value) else None
    case _ => None
  }

  predicate Recent(db: Db, a: Address, from: Height, o: WalletOutput) {
    exists k <- UnlockedKeys(db, a, from, MAX_HEIGHT) ::
        k.UnlockedKey? && k.amount == o.amount && k.globalIndex == o.globalIndex
  }

  // ---- the same, said about the outputs ----

  ghost function Own(db: Db, a: Address): set<WalletOutput> {
    Of(Unspents(db), a)
  }

  /** Unspent outputs of an address above the confirmed height. */
  ghost function Unconfirmed(db: Db, a: Address, h: Height): set<WalletOutput> {
    set o | o in Own(db, a) && o.height >= After(h)
  }

  /** Confirmed, but unlocked so recently that the unlocking block is not confirmed. */
  ghost function FreshlyUnlocked(db: Db, a: Address, h: Height, used: set<KeyImage>): set<WalletOutput> {
    set o | o in Own(db, a) && o.height <= h && o.keyImage !in used && Recent(db, a, h, o)
  }

  /** Confirmed, but being spent by a transaction in the memory pool. */
  ghost function BeingSpent(db: Db, a: Address, h: Height, used: set<KeyImage>): set<WalletOutput> {
    set o | o in Own(db, a) && o.height <= h && o.keyImage in used
  }

  /** What may be spent. */
  ghost function Spendable(db: Db, a: Address, h: Height, used: set<KeyImage>): set<WalletOutput> {
    set o | o in Own(db, a) && o.height <= h && o.keyImage !in used && !Recent(db, a, h, o)
  }

  ghost function Unused(s: set<WalletOutput>, used: set<KeyImage>): set<WalletOutput> {
    set o | o in s && o.keyImage !in used
  }

  /** A balance without the spendable parts of t, and with the locked part of t. */
  function Shifted(b: Balance, t: Balance): Balance {
    Balance(b.spendable - t.spendable, b.spendableDust - t.spendableDust, b.locked + t.locked,
            b.spendableOutputs - t.spendableOutputs, b.spendableDustOutputs - t.spendableDustOutputs,
            b.lockedOutputs + t.lockedOutputs)
  }

  /** A balance after the outputs of s have left its spendable part: to the locked part, or, if used, altogether. */
  ghost function Moved(b: Balance, used: set<KeyImage>, s: set<WalletOutput>): Balance {
    Shifted(b, Tally(s, Unused(s, used)))
  }

  ghost function BalanceOf(db: Db, a: Address, h: Height, used: set<KeyImage>): Balance {
    Moved(Moved(Moved(BalanceAt(db, a), used, Unconfirmed(db, a, h)), used, FreshlyUnlocked(db, a, h, used)),
          used, BeingSpent(db, a, h, used))
  }

  lemma {:induction false} MoveOne(b: Balance, used: set<KeyImage>, s: set<WalletOutput>, o: WalletOutput)
    requires o !in s
    ensures Moved(b, used, s + {o}) == Combine(Moved(b, used, s), o, if o.keyImage in used then 0 else 1, -1)
  {
    hide Tally, Unused, Dust, Sum;
    UnusedAdd(s, used, o);
    TallyAddUnspent(s, Unused(s, used), o);
    if o.keyImage !in used {
      TallyAddLocked(s + {o}, Unused(s, used), o);
    }
  }

  lemma {:induction false} UnusedAdd(s: set<WalletOutput>, used: set<KeyImage>, o: WalletOutput)
    requires o !in s
    ensures Unused(s + {o}, used) == if o.keyImage in used then Unused(s, used) else Unused(s, used) + {o}
    ensures o !in Unused(s, used)
  {
  }

  lemma {:induction false} MoveNone(b: Balance, used: set<KeyImage>)
    ensures Moved(b, used, {}) == b
  {
    assert Dust({}, false) == {} && Dust({}, true) == {} && Unused({}, used) == {};
  }

  // ---- the indexes lead to the right outputs ----

  /** The outputs behind a set of entries. */
  function Reached(db: Db, ks: set<Key>): set<WalletOutput> {
    set k | k in ks && Behind(db, k).Some? :: Behind(db, k).value
  }

  ghost predicate NoneTwice(db: Db, ks: set<Key>) {
    forall k, j | k in ks && j in ks && Behind(db, k).Some? && Behind(db, k) == Behind(db, j) :: k == j
  }

  lemma {:induction false} ReachOne(db: Db, ks: set<Key>, k: Key)
    requires NoneTwice(db, ks + {k}) && k !in ks
    ensures Behind(db, k).Some? ==>
            Behind(db, k).value !in Reached(db, ks) && Reached(db, ks + {k}) == Reached(db, ks) + {Behind(db, k).value}
    ensures Behind(db, k).None? ==> Reached(db, ks + {k}) == Reached(db, ks)
  {
    if Behind(db, k).Some? {
      var o := Behind(db, k).value;
      forall j | j in ks && Behind(db, j).Some?
        ensures Behind(db, j).value != o
      {
        assert j in ks + {k} && k in ks + {k};
      }
    }
  }

  lemma {:induction false} UnspentScan(db: Db, origin: Origin, a: Address, from: Height, to: Height)
    requires IndexOk(db, origin)
    ensures NoneTwice(db, UnspentKeys(db, a, from, to))
    ensures forall k :: k in UnspentKeys(db, a, from, to) ==> Behind(db, k).Some?
    ensures Reached(db, UnspentKeys(db, a, from, to)) == set o | o in Own(db, a) && After(from) <= o.height <= to
  {
    hide Balanced, LockedOk, KeyImagesOk, UnlockedOk;
    var ks := UnspentKeys(db, a, from, to);
    forall k | k in ks
      ensures Behind(db, k).Some? && PlaceOf(Behind(db, k).value) == k.place
    {
      assert k == if a == EVERYTHING then UnspentKey(k.place) else AddressKey(a, k.place);
    }
    forall o: WalletOutput
      ensures o in Reached(db, ks) <==> o in Own(db, a) && After(from) <= o.height <= to
    {
      UnspentsMember(db, origin, o);
      var k := if a == EVERYTHING then UnspentKey(PlaceOf(o)) else AddressKey(a, PlaceOf(o));
      if o in Own(db, a) && After(from) <= o.height <= to {
        assert k in ks && Behind(db, k) == Some(o);
      }
    }
  }

  lemma {:induction false} UnlockedScan(db: Db, origin: Origin, a: Address, h: Height, o: WalletOutput)
    requires IndexOk(db, origin)
    ensures NoneTwice(db, UnlockedKeys(db, a, h, MAX_HEIGHT))
    ensures o in Reached(db, UnlockedKeys(db, a, h, MAX_HEIGHT)) <==> o in Own(db, a) && Recent(db, a, h, o)
    ensures forall k :: k in UnlockedKeys(db, a, h, MAX_HEIGHT) && Behind(db, k).Some? ==>
              Behind(db, k).value == db[k].output.(amount := k.amount)
  {
    hide Balanced, LockedOk, KeyImagesOk;
    var ks := UnlockedKeys(db, a, h, MAX_HEIGHT);
    forall k | k in ks
      ensures k == UnlockedKey(k.height, k.amount, k.globalIndex) && (k.amount, k.globalIndex) in origin
      ensures db[k].output == origin[(k.amount, k.globalIndex)].(amount := db[k].output.amount)
      ensures Behind(db, k).Some? ==> Behind(db, k).value == origin[(k.amount, k.globalIndex)]
    {
      assert k == UnlockedKey(k.height, k.amount, k.globalIndex);
      if Behind(db, k).Some? {
        assert UnspentKey(Place(db[k].output.height, k.amount, k.globalIndex)) in db;
      }
    }
    UnspentsMember(db, origin, o);
    if o in Own(db, a) && Recent(db, a, h, o) {
      var k :| k in ks && k.UnlockedKey? && k.amount == o.amount && k.globalIndex == o.globalIndex;
      assert Behind(db, k) == Some(o);
    }
  }

  function ImageKeys(used: set<KeyImage>): set<Key> {
    set ki | ki in used :: KeyImageKey(ki)
  }

  lemma {:induction false} ImageScan(db: Db, origin: Origin, used: set<KeyImage>, o: WalletOutput)
    requires IndexOk(db, origin) && NO_KEY_IMAGE !in used
    ensures NoneTwice(db, ImageKeys(used))
    ensures o in Reached(db, ImageKeys(used)) <==> o in Unspents(db) && o.keyImage in used
    ensures forall ki :: ki in used && Behind(db, KeyImageKey(ki)).Some? ==>
            Behind(db, KeyImageKey(ki)).value.keyImage == ki
  {
    hide Balanced, LockedOk, UnlockedOk;
    forall ki | ki in used && Behind(db, KeyImageKey(ki)).Some?
      ensures Behind(db, KeyImageKey(ki)).value.keyImage == ki
    {
      assert KeyImageKey(ki) in db;
      assert UnspentKey(db[KeyImageKey(ki)].place) in db;
    }
    UnspentsMember(db, origin, o);
    if o in Unspents(db) && o.keyImage in used {
      assert KeyImageKey(o.keyImage) in ImageKeys(used) && Behind(db, KeyImageKey(o.keyImage)) == Some(o);
    }
    if o in Reached(db, ImageKeys(used)) {
      var k :| k in ImageKeys(used) && Behind(db, k) == Some(o);
      assert UnspentKey(db[k].place) in db;
    }
  }

  lemma {:induction false} Reach(db: Db, keys: set<Key>, todo: set<Key>, k: Key)
    requires NoneTwice(db, keys) && k in todo && todo <= keys
    ensures var reached := Reached(db, keys - todo);
            Reached(db, keys - (todo - {k})) == if Behind(db, k).Some? then reached + {Behind(db, k).value} else reached
    ensures Behind(db, k).Some? ==> Behind(db, k).value !in Reached(db, keys - todo)
  {
    hide Behind;
    assert keys - (todo - {k}) == keys - todo + {k};
    ReachOne(db, keys - todo, k);
  }

  ghost function Confirmed(s: set<WalletOutput>, a: Address, h: Height, used: set<KeyImage>,
                           isUsed: bool): set<WalletOutput> {
    set o | o in s && o.height <= h && (o.keyImage in used) == isUsed && (a == EVERYTHING || o.address == a)
  }

  lemma {:induction false} ConfirmOne(s: set<WalletOutput>, a: Address, h: Height, used: set<KeyImage>, isUsed: bool,
                                      o: WalletOutput)
    requires o !in s
    ensures o !in Confirmed(s, a, h, used, isUsed)
    ensures Confirmed(s + {o}, a, h, used, isUsed) ==
            if o.height <= h && (o.keyImage in used) == isUsed && (a == EVERYTHING || o.address == a)
            then Confirmed(s, a, h, used, isUsed) + {o} else Confirmed(s, a, h, used, isUsed)
  {
  }

  // ---- the queries ----

  method SubtractUnconfirmed(w: WalletState, used: set<KeyImage>, a: Address, h: Height, start: Balance)
    returns (b: Balance)
    requires w.Valid()
    ensures b == Moved(start, used, Unconfirmed(w.log.db, a, h))
  {
    var db := w.log.db;
    var keys := UnspentKeys(db, a, h, MAX_HEIGHT);
    UnconfirmedScan(db, w.origin, a, h);
    MoveNone(start, used);
    assert Reached(db, keys - keys) == {} && keys - {} == keys;
    hide IndexOk, UnspentKeys, Moved, Reached, NoneTwice, Behind, Combine;
    b := start;
    var todo := keys;
    ghost var moved := {};
    while todo != {}
      invariant todo <= keys && b == Moved(start, used, moved) && moved == Reached(db, keys - todo)
    {
      var k :| k in todo;
      var o := Behind(db, k).value;
      Reach(db, keys, todo, k);
      MoveOne(start, used, moved, o);
      if o.keyImage in used {
        b := Combine(b, o, 0, -1);
      } else {
        b := Combine(b, o, 1, -1);
      }
      moved := moved + {o};
      todo := todo - {k};
    }
  }

  method SubtractUnlocked(w: WalletState, used: set<KeyImage>, a: Address, h: Height, start: Balance)
    returns (b: Balance)
    requires w.Valid()
    ensures b == Moved(start, used, FreshlyUnlocked(w.log.db, a, h, used))
  {
    var db := w.log.db;
    var keys := UnlockedKeys(db, a, h, MAX_HEIGHT);
    FreshScan(db, w.origin, a, h, used);
    MoveNone(start, used);
    assert Reached(db, keys - keys) == {} && keys - {} == keys && Confirmed({}, EVERYTHING, h, used, false) == {};
    hide IndexOk, UnlockedKeys, Moved, Reached, NoneTwice, Behind, Combine, Confirmed;
    b := start;
    var todo := keys;
    ghost var moved := {};
    while todo != {}
      invariant todo <= keys && b == Moved(start, used, moved)
      invariant moved == Confirmed(Reached(db, keys - todo), EVERYTHING, h, used, false)
    {
      var k :| k in todo;
      Reach(db, keys, todo, k);
      var existing := Behind(db, k);
      if existing.Some? {
        ConfirmOne(Reached(db, keys - todo), EVERYTHING, h, used, false, existing.value);
        var recorded := db[k].output;
        if recorded.keyImage !in used && recorded.height <= h {
          MoveOne(start, used, moved, existing.value);
          b := Combine(b, existing.value, 1, -1);
          moved := moved + {existing.value};
        }
      }
      todo := todo - {k};
    }
  }

  method SubtractBeingSpent(w: WalletState, used: set<KeyImage>, a: Address, h: Height, start: Balance)
    returns (b: Balance)
    requires w.Valid() && NO_KEY_IMAGE !in used
    ensures b == Moved(start, used, BeingSpent(w.log.db, a, h, used))
  {
    var db := w.log.db;
    var keys := ImageKeys(used);
    SpentScan(db, w.origin, a, h, used);
    MoveNone(start, used);
    assert Reached(db, keys - keys) == {} && keys - {} == keys && Confirmed({}, a, h, used, true) == {};
    hide IndexOk, ImageKeys, Moved, Reached, NoneTwice, Behind, Combine, Confirmed;
    b := start;
    var todo := keys;
    ghost var moved := {};
    while todo != {}
      invariant todo <= keys && b == Moved(start, used, moved)
      invariant moved == Confirmed(Reached(db, keys - todo), a, h, used, true)
    {
      var k :| k in todo;
      Reach(db, keys, todo, k);
      var existing := Behind(db, k);
      if existing.Some? {
        ConfirmOne(Reached(db, keys - todo), a, h, used, true, existing.value);
        if existing.value.height <= h && (a == EVERYTHING || existing.value.address == a) {
          MoveOne(start, used, moved, existing.value);
          b := Combine(b, existing.value, 0, -1);
          moved := moved + {existing.value};
        }
      }
      todo := todo - {k};
    }
  }

  lemma {:induction false} UnconfirmedScan(db: Db, origin: Origin, a: Address, h: Height)
    requires IndexOk(db, origin)
    ensures NoneTwice(db, UnspentKeys(db, a, h, MAX_HEIGHT))
    ensures forall k :: k in UnspentKeys(db, a, h, MAX_HEIGHT) ==> Behind(db, k).Some?
    ensures Reached(db, UnspentKeys(db, a, h, MAX_HEIGHT)) == Unconfirmed(db, a, h)
  {
    UnspentScan(db, origin, a, h, MAX_HEIGHT);
    OwnHeights(db, origin, a);
  }

  lemma {:induction false} FreshScan(db: Db, origin: Origin, a: Address, h: Height, used: set<KeyImage>)
    requires IndexOk(db, origin)
    ensures var ks := UnlockedKeys(db, a, h, MAX_HEIGHT);
            && NoneTwice(db, ks)
            && Confirmed(Reached(db, ks), EVERYTHING, h, used, false) == FreshlyUnlocked(db, a, h, used)
            && forall k :: k in ks && Behind(db, k).Some? ==>
                 Behind(db, k).value.height == db[k].output.height
                     && Behind(db, k).value.keyImage == db[k].output.keyImage
  {
    UnlockedScan(db, origin, a, h, WalletOutput(0, 0, 0, 0, 0, 0, false));
    hide IndexOk, Recent, Own, Behind, NoneTwice;
    forall o: WalletOutput
      ensures o in Reached(db, UnlockedKeys(db, a, h, MAX_HEIGHT)) <==> o in Own(db, a) && Recent(db, a, h, o)
    {
      UnlockedScan(db, origin, a, h, o);
    }
  }

  lemma {:induction false} SpentScan(db: Db, origin: Origin, a: Address, h: Height, used: set<KeyImage>)
    requires IndexOk(db, origin) && NO_KEY_IMAGE !in used
    ensures NoneTwice(db, ImageKeys(used))
    ensures Confirmed(Reached(db, ImageKeys(used)), a, h, used, true) == BeingSpent(db, a, h, used)
    ensures forall k :: k in ImageKeys(used) && Behind(db, k).Some? ==> Behind(db, k).value.keyImage in used
  {
    ImageScan(db, origin, used, WalletOutput(0, 0, 0, 0, 0, 0, false));
    hide IndexOk, Behind, NoneTwice;
    forall o: WalletOutput
      ensures o in Reached(db, ImageKeys(used)) <==> o in Unspents(db) && o.keyImage in used
    {
      ImageScan(db, origin, used, o);
    }
  }

  // ---- the balance agrees with the listing ----

  function Plus(b: Balance, c: Balance): Balance {
    Balance(b.spendable + c.spendable, b.spendableDust + c.spendableDust, b.locked + c.locked,
            b.spendableOutputs + c.spendableOutputs, b.spendableDustOutputs + c.spendableDustOutputs,
            b.lockedOutputs + c.lockedOutputs)
  }

  lemma {:induction false} TallyUnion(s: set<WalletOutput>, t: set<WalletOutput>, u: set<WalletOutput>,
                                      v: set<WalletOutput>)
    requires s !! t && u !! v
    ensures Tally(s + t, u + v) == Plus(Tally(s, u), Tally(t, v))
  {
    assert Dust(s + t, false) == Dust(s, false) + Dust(t, false) && Dust(s + t, true) == Dust(s, true) + Dust(t, true);
    hide Dust, Sum;
    assert Dust(s, false) !! Dust(t, false) && Dust(s, true) !! Dust(t, true) by { DustApart(s, t); }
    SumUnion(Dust(s, false), Dust(t, false));
    SumUnion(Dust(s, true), Dust(t, true));
    SumUnion(u, v);
  }

  lemma {:induction false} DustApart(s: set<WalletOutput>, t: set<WalletOutput>)
    requires s !! t
    ensures Dust(s, false) !! Dust(t, false) && Dust(s, true) !! Dust(t, true)
  {
  }

  lemma {:induction false} MovedTwice(b: Balance, used: set<KeyImage>, s: set<WalletOutput>, t: set<WalletOutput>)
    requires s !! t
    ensures Moved(Moved(b, used, s), used, t) == Moved(b, used, s + t)
  {
    assert Unused(s + t, used) == Unused(s, used) + Unused(t, used) && Unused(s, used) !! Unused(t, used);
    hide Tally, Unused;
    TallyUnion(s, t, Unused(s, used), Unused(t, used));
  }

  predicate SameSpendable(b: Balance, c: Balance) {
    && b.spendable == c.spendable && b.spendableOutputs == c.spendableOutputs
    && b.spendableDust == c.spendableDust && b.spendableDustOutputs == c.spendableDustOutputs
  }

  /** The unspent outputs of the address that are unconfirmed or freshly unlocked, and not being spent. */
  ghost function Waiting(db: Db, a: Address, h: Height, used: set<KeyImage>): set<WalletOutput> {
    Unused(Own(db, a), used) - Spendable(db, a, h, used)
  }

  /** Below the last height, every output of the address is unconfirmed, freshly unlocked, being spent or spendable, and
      is counted once: the spendable parts of the balance are what the listing adds up to, and the locked part is what
      is locked or waiting. */
  lemma {:induction false} EachIsSubtractedOnce(db: Db, origin: Origin, a: Address, h: Height, used: set<KeyImage>)
    requires IndexOk(db, origin) && h < MAX_HEIGHT
    ensures BalanceOf(db, a, h, used) == Tally(Spendable(db, a, h, used), Of(Lockeds(db), a) + Waiting(db, a, h, used))
  {
    Partition(db, a, h, used);
    LockedIsNotOwn(db, origin, a);
    var b, locked, own := BalanceAt(db, a), Of(Lockeds(db), a), Own(db, a);
    assert b == Tally(own, locked) && Waiting(db, a, h, used) <= own;
    hide *;
    BalanceInOneMove(db, a, h, used);
    MoveAway(Spendable(db, a, h, used), Gone(db, a, h, used), locked, Waiting(db, a, h, used), used, own, b);
  }

  ghost function Gone(db: Db, a: Address, h: Height, used: set<KeyImage>): set<WalletOutput> {
    Unconfirmed(db, a, h) + FreshlyUnlocked(db, a, h, used) + BeingSpent(db, a, h, used)
  }

  lemma {:induction false} Partition(db: Db, a: Address, h: Height, used: set<KeyImage>)
    requires h < MAX_HEIGHT
    ensures Unconfirmed(db, a, h) !! FreshlyUnlocked(db, a, h, used)
    ensures (Unconfirmed(db, a, h) + FreshlyUnlocked(db, a, h, used)) !! BeingSpent(db, a, h, used)
    ensures Gone(db, a, h, used) !! Spendable(db, a, h, used)
    ensures Spendable(db, a, h, used) + Gone(db, a, h, used) == Own(db, a)
    ensures Unused(Gone(db, a, h, used), used) == Waiting(db, a, h, used)
  {
    hide Own, Recent;
    forall o: WalletOutput
      ensures o in Own(db, a) <==> o in Gone(db, a, h, used) || o in Spendable(db, a, h, used)
      ensures o in Unused(Gone(db, a, h, used), used) <==> o in Waiting(db, a, h, used)
    {
    }
  }

  lemma {:induction false} LockedIsNotOwn(db: Db, origin: Origin, a: Address)
    requires IndexOk(db, origin)
    ensures Of(Lockeds(db), a) !! Own(db, a)
  {
    hide Balanced;
    forall o | o in Lockeds(db)
      ensures o !in Unspents(db)
    {
      LockedsMember(db, origin, o);
      UnspentsMember(db, origin, o);
      assert LockedKey(LockKeyOf(o).byHeight, LockKeyOf(o).moment, o.amount, o.globalIndex) in db;
    }
  }

  lemma {:induction false} BalanceInOneMove(db: Db, a: Address, h: Height, used: set<KeyImage>)
    requires Unconfirmed(db, a, h) !! FreshlyUnlocked(db, a, h, used)
    requires (Unconfirmed(db, a, h) + FreshlyUnlocked(db, a, h, used)) !! BeingSpent(db, a, h, used)
    ensures BalanceOf(db, a, h, used) ==
            Moved(BalanceAt(db, a), used, Gone(db, a, h, used))
  {
    var b := BalanceAt(db, a);
    hide Moved, Unconfirmed, FreshlyUnlocked, BeingSpent;
    MovedTwice(b, used, Unconfirmed(db, a, h), FreshlyUnlocked(db, a, h, used));
    MovedTwice(b, used, Unconfirmed(db, a, h) + FreshlyUnlocked(db, a, h, used), BeingSpent(db, a, h, used));
  }

  lemma {:induction false} MoveAway(spendable: set<WalletOutput>, gone: set<WalletOutput>, locked: set<WalletOutput>,
                 waiting: set<WalletOutput>, used: set<KeyImage>, own: set<WalletOutput>, b: Balance)
    requires gone !! spendable && spendable + gone == own && locked !! own && waiting <= own
             && Unused(gone, used) == waiting
    requires b == Tally(own, locked)
    ensures Moved(b, used, gone) == Tally(spendable, locked + waiting)
  {
    hide Tally, Unused, Sum, Dust;
    SplitTally(own, locked);
    SplitTally(gone, waiting);
    SplitTally(spendable, locked + waiting);
    UnspentUnion(spendable, gone);
    LockedUnion(locked, waiting);
  }

  /** The two halves of a tally are independent. */
  lemma {:induction false} SplitTally(u: set<WalletOutput>, l: set<WalletOutput>)
    ensures Tally(u, l) == Tally(u, {}).(locked := Tally({}, l).locked, lockedOutputs := Tally({}, l).lockedOutputs)
  {
  }

  lemma {:induction false} UnspentUnion(s: set<WalletOutput>, t: set<WalletOutput>)
    requires s !! t
    ensures var x, y, z := Tally(s, {}), Tally(t, {}), Tally(s + t, {});
            && z.spendable == x.spendable + y.spendable && z.spendableOutputs == x.spendableOutputs + y.spendableOutputs
            && z.spendableDust == x.spendableDust + y.spendableDust
            && z.spendableDustOutputs == x.spendableDustOutputs + y.spendableDustOutputs
  {
    var none: set<WalletOutput> := {};
    assert none + none == none;
    TallyUnion(s, t, none, none);
  }

  lemma {:induction false} LockedUnion(s: set<WalletOutput>, t: set<WalletOutput>)
    requires s !! t
    ensures Tally({}, s + t).locked == Tally({}, s).locked + Tally({}, t).locked
    ensures Tally({}, s + t).lockedOutputs == Tally({}, s).lockedOutputs + Tally({}, t).lockedOutputs
  {
    SumUnion(s, t);
  }

  /** At the last height the scan for unconfirmed outputs starts again at zero and takes everything, and what is freshly
      unlocked or being spent is taken once more. So the balance agrees with the listing exactly when the confirmed
      height is not the last one or the address has nothing unspent. */
  lemma {:induction false} BalanceAgreesWithListing(db: Db, origin: Origin, a: Address, h: Height, used: set<KeyImage>)
    requires IndexOk(db, origin) && h <= MAX_HEIGHT
    ensures SameSpendable(BalanceOf(db, a, h, used), Tally(Spendable(db, a, h, used), {})) <==>
            h != MAX_HEIGHT || Own(db, a) == {}
  {
    if h != MAX_HEIGHT {
      EachIsSubtractedOnce(db, origin, a, h, used);
    } else {
      AtTheLastHeight(db, origin, a, used);
    }
  }

  lemma {:induction false} AtTheLastHeight(db: Db, origin: Origin, a: Address, used: set<KeyImage>)
    requires IndexOk(db, origin)
    ensures SameSpendable(BalanceOf(db, a, MAX_HEIGHT, used), Tally(Spendable(db, a, MAX_HEIGHT, used), {})) <==>
            Own(db, a) == {}
  {
    var h := MAX_HEIGHT;
    var unlocked, spent, spendable := FreshlyUnlocked(db, a, h, used), BeingSpent(db, a, h, used),
        Spendable(db, a, h, used);
    var own, b, locked := Own(db, a), BalanceAt(db, a), Of(Lockeds(db), a);
    assert Unconfirmed(db, a, h) == own;
    OwnHeights(db, origin, a);
    var twice := unlocked + spent;
    assert unlocked !! spent && twice !! spendable && twice + spendable == own;
    assert b == Tally(own, locked);
    MovedTwice(Moved(b, used, own), used, unlocked, spent);
    assert BalanceOf(db, a, h, used) == Moved(Moved(b, used, own), used, twice);
    hide *;
    MovedFromNothing(own, twice, spendable, locked, used);
  }

  /** When everything has been taken out already, taking out some of it again leaves the spendable parts negative, or
      there was nothing. */
  lemma {:induction false} MovedFromNothing(own: set<WalletOutput>, twice: set<WalletOutput>,
                                            spendable: set<WalletOutput>,
                         locked: set<WalletOutput>, used: set<KeyImage>)
    requires twice !! spendable && twice + spendable == own
    ensures SameSpendable(Moved(Moved(Tally(own, locked), used, own), used, twice), Tally(spendable, {})) <==> own == {}
  {
    hide Tally, Unused, Sum, Dust;
    SplitTally(own, locked);
    SplitTally(own, Unused(own, used));
    SplitTally(twice, Unused(twice, used));
    UnspentUnion(twice, spendable);
    NothingTallied(own);
    NothingTallied(twice);
    NothingTallied(spendable);
  }

  lemma {:induction false} NothingTallied(s: set<WalletOutput>)
    ensures var t := Tally(s, {});
            && t.spendableOutputs >= 0 && t.spendableDustOutputs >= 0
            && (s == {} <==> t.spendableOutputs == 0 && t.spendableDustOutputs == 0)
            && (s == {} ==> t.spendable == 0 && t.spendableDust == 0)
  {
    NoDustNothing(s);
  }

  lemma {:induction false} NoDustNothing(s: set<WalletOutput>)
    ensures s == {} <==> |Dust(s, false)| == 0 && |Dust(s, true)| == 0
  {
    assert Dust(s, false) + Dust(s, true) == s;
  }

  lemma {:induction false} OwnHeights(db: Db, origin: Origin, a: Address)
    requires IndexOk(db, origin)
    ensures forall o :: o in Own(db, a) ==> o.height <= MAX_HEIGHT
  {
    hide Balanced;
    forall o | o in Own(db, a)
      ensures o.height <= MAX_HEIGHT
    {
      UnspentsMember(db, origin, o);
      assert UnspentKey(PlaceOf(o)) in db;
    }
  }

  /** The balance of an address at a confirmed height. */
  method GetBalance(w: WalletState, used: set<KeyImage>, a: Address, h: Height) returns (b: Balance)
    requires w.Valid() && NO_KEY_IMAGE !in used && h <= MAX_HEIGHT
    ensures b == BalanceOf(w.log.db, a, h, used)
    ensures SameSpendable(b, Tally(Spendable(w.log.db, a, h, used), {})) <==> h != MAX_HEIGHT || Own(w.log.db, a) == {}
  {
    BalanceAgreesWithListing(w.log.db, w.origin, a, h, used);
    hide Moved, SameSpendable;
    b := BalanceAt(w.log.db, a);
    b := SubtractUnconfirmed(w, used, a, h, b);
    b := SubtractUnlocked(w, used, a, h, b);
    b := SubtractBeingSpent(w, used, a, h, b);
  }

  ghost function Elements(os: seq<WalletOutput>): set<WalletOutput> {
    set o | o in os
  }

  ghost function Free(s: set<WalletOutput>, db: Db, a: Address, h: Height, used: set<KeyImage>): set<WalletOutput> {
    set o | o in s && o.keyImage !in used && !Recent(db, a, h, o)
  }

  ghost predicate Distinct(os: seq<WalletOutput>) {
    forall i, j | 0 <= i < j < |os| :: os[i] != os[j]
  }

  /** The outputs that may be spent, each once, and the sum of those that are not dust. The listing may stop early, but
      only once it is worth the amount asked for and has enough outputs. */
  method AddUnspent(w: WalletState, used: set<KeyImage>, a: Address, h: Height, maxAmount: Amount)
    returns (result: seq<WalletOutput>, total: int)
    requires w.Valid() && h <= MAX_HEIGHT
    ensures IsListing(result, total, Elements(result))
    ensures Elements(result) <= Spendable(w.log.db, a, h, used)
    ensures Elements(result) == Spendable(w.log.db, a, h, used) || (total >= maxAmount && |result| >= MIN_COUNT)
  {
    hide IndexOk, PastOk, WalletDb.Valid, IsListing, Elements, Spendable;
    result, total := ScanUnspent(w.log.db, w.origin, used, a, h, maxAmount);
  }

  method ScanUnspent(db: Db, ghost origin: Origin, used: set<KeyImage>, a: Address, h: Height, maxAmount: Amount)
    returns (result: seq<WalletOutput>, total: int)
    requires IndexOk(db, origin) && h <= MAX_HEIGHT
    ensures IsListing(result, total, Elements(result))
    ensures Elements(result) <= Spendable(db, a, h, used)
    ensures Elements(result) == Spendable(db, a, h, used) || (total >= maxAmount && |result| >= MIN_COUNT)
  {
    hide IndexOk, UnspentKeys, UnlockedKeys, Reached, NoneTwice, Behind, Recent, Spendable, IsListing, Free, Elements;
    var keys := UnspentKeys(db, a, MAX_HEIGHT, h);
    var recentlyUnlocked := set k | k in UnlockedKeys(db, a, h, MAX_HEIGHT) && k.UnlockedKey? ::
        (k.amount, k.globalIndex);
    RecentPairs(db, a, h);
    ListScan(db, origin, a, h, used);
    NothingScanned(db, a, h, used);
    result, total := [], 0;
    ghost var scanned := {};
    var todo := keys;
    assert keys - todo == {};
    while todo != {}
      invariant todo <= keys && scanned == Reached(db, keys - todo)
      invariant IsListing(result, total, Free(scanned, db, a, h, used))
    {
      var k :| k in todo;
      Reach(db, keys, todo, k);
      var o := Behind(db, k).value;
      FreeOne(scanned, db, a, h, used, o);
      todo := todo - {k};
      scanned := scanned + {o};
      if o.keyImage !in used && (o.amount, o.globalIndex) !in recentlyUnlocked {
        ListOne(result, total, Free(scanned - {o}, db, a, h, used), o);
        result := result + [o];
        if !o.dust {
          total := total + o.amount;
        }
        if total >= maxAmount && |result| >= MIN_COUNT {
          FreeOfSome(db, keys - todo, keys, a, h, used);
          IsListed(result, total, Free(scanned, db, a, h, used));
          return;
        }
      }
    }
    assert keys - todo == keys;
    IsListed(result, total, Spendable(db, a, h, used));
  }

  /** The listing of a set: each of its outputs once, and the sum of those that are not dust. */
  ghost predicate IsListing(os: seq<WalletOutput>, total: int, s: set<WalletOutput>) {
    Distinct(os) && Elements(os) == s && total == Sum(Dust(s, false))
  }

  lemma {:induction false} IsListed(os: seq<WalletOutput>, total: int, s: set<WalletOutput>)
    requires IsListing(os, total, s)
    ensures Elements(os) == s && IsListing(os, total, Elements(os))
  {
  }

  lemma {:induction false} NothingScanned(db: Db, a: Address, h: Height, used: set<KeyImage>)
    ensures Reached(db, {}) == {} && IsListing([], 0, Free({}, db, a, h, used))
  {
    assert Free({}, db, a, h, used) == {} && Dust(Elements([]), false) == {};
  }

  lemma {:induction false} ListScan(db: Db, origin: Origin, a: Address, h: Height, used: set<KeyImage>)
    requires IndexOk(db, origin)
    ensures var keys := UnspentKeys(db, a, MAX_HEIGHT, h);
            && NoneTwice(db, keys) && (forall k :: k in keys ==> Behind(db, k).Some?)
            && Free(Reached(db, keys), db, a, h, used) == Spendable(db, a, h, used)
  {
    UnspentScan(db, origin, a, MAX_HEIGHT, h);
    hide IndexOk, Own, Recent;
  }

  lemma {:induction false} FreeOne(s: set<WalletOutput>, db: Db, a: Address, h: Height, used: set<KeyImage>,
                                   o: WalletOutput)
    requires o !in s
    ensures o !in Free(s, db, a, h, used) && s + {o} - {o} == s
    ensures Free(s + {o}, db, a, h, used) ==
            if o.keyImage !in used && !Recent(db, a, h, o) then Free(s, db, a, h, used) + {o}
                else Free(s, db, a, h, used)
  {
    hide Recent;
  }

  lemma {:induction false} FreeOfSome(db: Db, some: set<Key>, all: set<Key>, a: Address, h: Height, used: set<KeyImage>)
    requires some <= all
    ensures Free(Reached(db, some), db, a, h, used) <= Free(Reached(db, all), db, a, h, used)
  {
    hide Recent, Behind;
  }

  lemma {:induction false} RecentPairs(db: Db, a: Address, h: Height)
    ensures forall o: WalletOutput ::
              (o.amount, o.globalIndex) in (set k | k in UnlockedKeys(db, a, h, MAX_HEIGHT) && k.UnlockedKey? ::
                  (k.amount, k.globalIndex))
              <==> Recent(db, a, h, o)
  {
  }

  lemma {:induction false} ListOne(os: seq<WalletOutput>, total: int, s: set<WalletOutput>, o: WalletOutput)
    requires IsListing(os, total, s) && o !in s
    ensures IsListing(os + [o], total + (if o.dust then 0 else o.amount), s + {o})
  {
    assert Elements(os + [o]) == s + {o};
    TallyAddUnspent(s, {}, o);
  }
}
