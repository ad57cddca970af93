/** The undo log of the wallet cache. Every write between two blocks records the old value of its key, once; a block
    is pushed together with that record, and popping it puts the old values back. */
module WalletUndo {
  import opened ChainTypes

  type UndoMap<!K, V> = map<K, Option<V>>

  function Lookup<K, V>(db: map<K, V>, k: K): Option<V> {
    if k in db then Some(db[k]) else None
  }

  /** Only the first old value of a key is kept. */
  function Recorded<K, V>(undo: UndoMap<K, V>, db: map<K, V>, k: K): UndoMap<K, V> {
    if k in undo then undo else undo[k := Lookup(db, k)]
  }

  /** The database with all recorded old values put back. */
  function Rollback<K, V>(db: map<K, V>, undo: UndoMap<K, V>): map<K, V> {
    map k | k in db.Keys + undo.Keys && (k in undo ==> undo[k].Some?) :: if k in undo then undo[k].value else db[k]
  }

  /** However often and in whatever way a key is written, rolling back ends at the same database. */
  lemma {:induction false} RecordedWriteRollsBack<K, V>(db: map<K, V>, undo: UndoMap<K, V>, k: K, db': map<K, V>)
    requires forall j :: j != k ==> Lookup(db', j) == Lookup(db, j)
    ensures Rollback(db', Recorded(undo, db, k)) == Rollback(db, undo)
  {
    var was, now := Rollback(db, undo), Rollback(db', Recorded(undo, db, k));
    forall j
      ensures Lookup(now, j) == Lookup(was, j)
    {
      assert Lookup(db', j) == Lookup(db, j) || j == k;
    }
    SameLookups(now, was);
  }

  lemma {:induction false} SameLookups<K, V>(m: map<K, V>, n: map<K, V>)
    requires forall k :: Lookup(m, k) == Lookup(n, k)
    ensures m == n
  {
    forall k
      ensures k in m <==> k in n
      ensures k in m ==> m[k] == n[k]
    {
      assert Lookup(m, k) == Lookup(n, k);
    }
  }

  datatype Header = Header(hash: Hash, previous: Hash, timestamp: nat)

  const NO_HEADER := Header(0, 0, 0)

  /** Everything the cache holds right after a block was pushed. The three maps are the keys of the one database
      that are written with an undo record, the records themselves, and the headers by height. */
  datatype Snapshot<!K, V> = Snapshot(db: map<K, V>, states: map<int, UndoMap<K, V>>, headers: map<int, Header>,
      tip: Header)

  /** What pop_chain does to a cache at height h, whatever is pending. */
  function Popped<K, V>(s: Snapshot<K, V>, h: int, tail: int): Snapshot<K, V> {
    var headers := s.headers - {h};
    var tip := if h != tail && h - 1 in headers then headers[h - 1] else NO_HEADER;
    if h in s.states then Snapshot(Rollback(s.db, s.states[h]), s.states - {h}, headers, tip)
    else Snapshot(s.db, s.states, headers, tip)
  }

  /** The snapshots of two heights in a row: popping the upper gives the lower. */
  ghost predicate Follows<K, V>(lower: Snapshot<K, V>, upper: Snapshot<K, V>, h: int, tail: int) {
    h in upper.headers && Popped(upper, h, tail) == lower
  }

  /** Popping with writes pending restores the database exactly when every key that was written since the last block,
      and that the popped block's own record does not cover, has its old value again. */
  lemma {:induction false} PoppingWithPendingWrites<K, V>(db: map<K, V>, pending: UndoMap<K, V>, undo: UndoMap<K, V>)
    ensures Rollback(db, undo) == Rollback(Rollback(db, pending), undo) <==>
            forall k <- pending | k !in undo :: Lookup(db, k) == pending[k]
  {
    var settled := Rollback(db, pending);
    var popped, expected := Rollback(db, undo), Rollback(settled, undo);
    if forall k <- pending | k !in undo :: Lookup(db, k) == pending[k] {
      forall k
        ensures Lookup(popped, k) == Lookup(expected, k)
      {
        assert k in pending && k !in undo ==> Lookup(db, k) == pending[k];
      }
      SameLookups(popped, expected);
    } else {
      var k :| k in pending && k !in undo && Lookup(db, k) != pending[k];
      assert Lookup(popped, k) == Lookup(db, k) && Lookup(expected, k) == pending[k];
    }
  }

  ghost predicate InOrder<K, V>(history: seq<Snapshot<K, V>>, tail: int) {
    forall i | 0 < i < |history| :: Follows(history[i - 1], history[i], tail - 1 + i, tail)
  }

  lemma {:induction false} TopOfHistory<K, V>(history: seq<Snapshot<K, V>>, tail: int)
    requires InOrder(history, tail) && |history| > 1
    ensures var n, h := |history| - 1, tail - 2 + |history|;
            && Popped(history[n], h, tail) == history[n - 1] && h in history[n].headers
            && InOrder(history[..n], tail)
            && (h > tail ==> h - 1 in history[n].headers)
  {
    var n, h := |history| - 1, tail - 2 + |history|;
    assert Follows(history[n - 1], history[n], h, tail);
    if n > 1 {
      assert Follows(history[n - 2], history[n - 1], h - 1, tail);
    }
  }

  lemma {:induction false} InOrderGrows<K, V>(history: seq<Snapshot<K, V>>, s: Snapshot<K, V>, tail: int)
    requires history != [] && InOrder(history, tail) && Follows(history[|history| - 1], s, tail - 1 + |history|, tail)
    ensures InOrder(history + [s], tail)
  {
    hide Follows;
  }

  /** The snapshot that pushing a block makes: popping it leads back. */
  lemma {:induction false} PushedFollows<K, V>(before: Snapshot<K, V>, db: map<K, V>, undo: UndoMap<K, V>,
                                               header: Header, h: int, tail: int)
    requires Rollback(db, undo) == before.db && h !in before.headers && h !in before.states
    requires before.tip == if h != tail && h - 1 in before.headers then before.headers[h - 1] else NO_HEADER
    ensures Follows(before, Snapshot(db, if undo == map[] then before.states else before.states[h := undo],
                                     before.headers[h := header], header), h, tail)
  {
    assert before.headers[h := header] - {h} == before.headers;
    if undo == map[] {
      NothingPending(db);
    } else {
      assert before.states[h := undo] - {h} == before.states;
    }
  }

  lemma {:induction false} NothingPending<K, V>(db: map<K, V>)
    ensures Rollback(db, map[]) == db
  {
  }

  class WalletDb<!K(==), V> {
    var db: map<K, V>
    var states: map<int, UndoMap<K, V>>
    var headers: map<int, Header>
    var current: UndoMap<K, V>
    var tipHeight: int
    const tailHeight: int
    var tip: Header
    ghost var history: seq<Snapshot<K, V>> // history[i] is the cache when height tailHeight - 1 + i was reached

    ghost function Now(): Snapshot<K, V>
      reads this
    {
      Snapshot(db, states, headers, tip)
    }

    ghost predicate Valid()
      reads this
    {
      && |history| == tipHeight - tailHeight + 2 && history != []
      && InOrder(history, tailHeight)
      && Now() == Snapshot(db, history[|history| - 1].states, history[|history| - 1].headers,
          history[|history| - 1].tip)
      && Rollback(db, current) == history[|history| - 1].db
      && (forall h <- states :: h <= tipHeight)
      && (forall h <- headers :: h <= tipHeight)
      && (tipHeight >= tailHeight ==> tipHeight in headers && headers[tipHeight] == tip)
      && (tipHeight < tailHeight ==> tip == NO_HEADER)
    }

    constructor (tailHeight: int)
      ensures Valid() && db == map[] && current == map[] && this.tailHeight == tailHeight && tipHeight == tailHeight - 1
      ensures |history| == 1
    {
      db, states, headers, current := map[], map[], map[], map[];
      this.tailHeight, tipHeight, tip := tailHeight, tailHeight - 1, NO_HEADER;
      history := [Snapshot(map[], map[], map[], NO_HEADER)];
    }

    /** False when the key must be new and is not: the database throws. */
    method PutWithUndo(k: K, v: V, noOverwrite: bool) returns (ok: bool)
      requires Valid()
      modifies this`db, this`current
      ensures Valid()
      ensures ok == !(noOverwrite && k in old(db))
      ensures db == if ok then old(db)[k := v] else old(db)
    {
      current := Recorded(current, db, k);
      RecordedWriteRollsBack(db, old(current), k, db);
      ok := !(noOverwrite && k in db);
      if ok {
        RecordedWriteRollsBack(db, old(current), k, db[k := v]);
        db := db[k := v];
      }
    }

    method DelWithUndo(k: K, mustExist: bool) returns (ok: bool)
      requires Valid()
      modifies this`db, this`current
      ensures Valid()
      ensures ok == (mustExist ==> k in old(db))
      ensures db == old(db) - {k}
    {
      current := Recorded(current, db, k);
      RecordedWriteRollsBack(db, old(current), k, db - {k});
      ok := mustExist ==> k in db;
      db := db - {k};
    }

    method SaveDbState(h: int)
      modifies this`states
      ensures states == if current == map[] then old(states) else old(states)[h := current]
    {
      if current != map[] {
        states := states[h := current];
      }
    }

    /** Adds a block: its header, and the record of everything written since the last one. */
    method PushChain(header: Header)
      requires Valid()
      modifies this
      ensures Valid() && current == map[]
      ensures tipHeight == old(tipHeight) + 1 && tip == header && db == old(db)
      ensures history == old(history) + [Now()]
    {
      ghost var before := history[|history| - 1];
      assert tipHeight + 1 !in headers && tipHeight + 1 !in states; // both keys are new
      hide InOrder, Rollback, Follows;
      PushedFollows(before, db, current, header, tipHeight + 1, tailHeight);
      tipHeight := tipHeight + 1;
      headers := headers[tipHeight := header];
      tip := header;
      SaveDbState(tipHeight);
      current := map[];
      NothingPending(db);
      InOrderGrows(history, Now(), tailHeight);
      history := history + [Now()];
    }

    method UndoDbState(h: int)
      modifies this`db, this`states
      ensures db == if h in old(states) then Rollback(old(db), old(states)[h]) else old(db)
      ensures states == old(states) - {h}
    {
      if h !in states {
        assert states - {h} == states;
        return;
      }
      var undo := states[h];
      states := states - {h};
      ghost var was := db;
      var todo := undo.Keys;
      while todo != {}
        invariant todo <= undo.Keys && states == old(states) - {h}
        invariant forall k :: Lookup(db, k) == if k in undo && k !in todo then undo[k] else Lookup(was, k)
      {
        var k :| k in todo;
        if undo[k].Some? {
          db := db[k := undo[k].value];
        } else {
          db := db - {k};
        }
        todo := todo - {k};
      }
      forall k
        ensures Lookup(db, k) == Lookup(Rollback(was, undo), k)
      {
      }
      SameLookups(db, Rollback(was, undo));
    }

    /** Removes the last block. With nothing pending, the whole cache is again what it was one block earlier. */
    method PopChain()
      requires Valid() && tipHeight + 1 != tailHeight
      modifies this
      ensures tipHeight == old(tipHeight) - 1 && current == old(current)
      ensures Now() == Popped(old(Now()), old(tipHeight), tailHeight)
      ensures history == old(history)[..|old(history)| - 1]
      ensures old(current) == map[] ==> Valid() && Now() == history[|history| - 1]
    {
      ghost var was := Now();
      ghost var n := |history| - 1;
      TopOfHistory(history, tailHeight);
      hide InOrder, Rollback;
      NothingPending(was.db);
      UndoDbState(tipHeight);
      NothingPending(db);
      headers := headers - {tipHeight};
      tipHeight := tipHeight - 1;
      if tipHeight + 1 == tailHeight {
        tip := NO_HEADER;
      } else {
        tip := headers[tipHeight];
      }
      history := history[..n];
      assert states == if tipHeight + 1 in was.states then was.states - {tipHeight + 1} else was.states;
    }
  }
}
