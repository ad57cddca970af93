/** Range scans over the wallet's indexes. A cursor visits the keys of an index in the order of their bytes; a scan
    seeks with the first height alone, reads the numbers back from every key, and stops at the first height that is too
    large. */
module WalletScans {
  import opened ChainTypes
  import opened Numerals
  import opened WalletIndexes
  import opened WalletQueries
  import SqliteVarints

  /** The numbers in a key of one of the scanned indexes. */
  function Numbers(k: Key): seq<nat> {
    match k
    case UnspentKey(p) => [p.height, p.amount, p.globalIndex]
    case AddressKey(_, p) => [p.height, p.amount, p.globalIndex]
    case UnlockedKey(height, amount, globalIndex) => [height, amount, globalIndex]
    case _ => []
  }

  function Suffix(k: Key): seq<Byte>
    requires SqliteVarints.AllFit(Numbers(k))
  {
    SqliteVarints.Key(Numbers(k))
  }

  /** What a cursor visits: the keys of an index, in the order of their bytes. */
  ghost predicate Lists(cursor: seq<Key>, index: set<Key>) {
    && (forall k :: k in cursor <==> k in index)
    && (forall i | 0 <= i < |cursor| :: |Numbers(cursor[i])| == 3 && SqliteVarints.AllFit(Numbers(cursor[i])))
    && forall i, j | 0 <= i < j < |cursor| :: SqliteVarints.Before(Suffix(cursor[i]), Suffix(cursor[j]))
  }

  lemma {:induction false} HeightsAscend(cursor: seq<Key>, index: set<Key>, i: nat, j: nat)
    requires Lists(cursor, index) && i < j < |cursor|
    ensures Numbers(cursor[i])[0] <= Numbers(cursor[j])[0] && cursor[i] != cursor[j]
  {
    assert SqliteVarints.Before(Suffix(cursor[i]), Suffix(cursor[j]));
    SqliteVarints.KeysSortLikeTuples(Numbers(cursor[i]), Numbers(cursor[j]));
    SqliteVarints.BeforeAsymmetric(Suffix(cursor[i]), Suffix(cursor[j]));
  }

  /** A height alone comes before a whole key exactly when the key's height is not smaller. */
  lemma {:induction false} SeekDecides(numbers: seq<nat>, height: nat)
    requires |numbers| == 3 && SqliteVarints.AllFit(numbers) && height < UINT64_RANGE
    ensures SqliteVarints.Before(SqliteVarints.Key(numbers), SqliteVarints.Written(height)) <==> numbers[0] < height
  {
    assert [height][1..] == [] && SqliteVarints.Key([]) == [];
    assert SqliteVarints.Key([height]) == SqliteVarints.Written(height);
    SqliteVarints.KeysSortLikeTuples(numbers, [height]);
  }

  /** The three numbers of a key, and nothing more in it. */
  method Parse(suffix: seq<Byte>, ghost numbers: seq<nat>) returns (height: nat, amount: nat, globalIndex: nat)
    requires |numbers| == 3 && SqliteVarints.AllFit(numbers) && suffix == SqliteVarints.Key(numbers)
    ensures numbers == [height, amount, globalIndex]
  {
    hide SqliteVarints.Written;
    ghost var h, a, g := numbers[0], numbers[1], numbers[2];
    assert numbers[1..][1..] == [g] && [g][1..] == [] && numbers[1..][0] == a;
    assert SqliteVarints.Key([g]) == SqliteVarints.Written(g) + [];
    assert suffix == SqliteVarints.Written(h) + (SqliteVarints.Written(a) + (SqliteVarints.Written(g) + []));
    var rest;
    height, rest := Next(suffix, h, SqliteVarints.Written(a) + (SqliteVarints.Written(g) + []));
    amount, rest := Next(rest, a, SqliteVarints.Written(g) + []);
    globalIndex, rest := Next(rest, g, []);
    assert rest == [];
  }

  method Next(bytes: seq<Byte>, ghost v: nat, ghost behind: seq<Byte>) returns (n: nat, rest: seq<Byte>)
    requires v < UINT64_RANGE && bytes == SqliteVarints.Written(v) + behind
    ensures n == v && rest == behind
  {
    SqliteVarints.ReadUndoesWrite(v, behind);
    hide SqliteVarints.Written, SqliteVarints.Read, SqliteVarints.SizeOf;
    var r := SqliteVarints.ReadVarint(bytes);
    n, rest := r.value.0, bytes[r.value.1..];
    assert rest == behind;
  }

  /** The cursor is placed on the first key that does not come before the height alone. */
  method Seek(cursor: seq<Key>, ghost index: set<Key>, first: Height) returns (i: nat)
    requires Lists(cursor, index) && first < UINT64_RANGE
    ensures i <= |cursor|
    ensures forall k | 0 <= k < i :: Numbers(cursor[k])[0] < first
    ensures forall k | i <= k < |cursor| :: first <= Numbers(cursor[k])[0]
  {
    hide SqliteVarints.Written, SqliteVarints.Key, SqliteVarints.Before;
    var middle := SqliteVarints.WriteVarint(first);
    i := 0;
    while i < |cursor| && SqliteVarints.Before(Suffix(cursor[i]), middle)
      invariant 0 <= i <= |cursor| && forall k | 0 <= k < i :: Numbers(cursor[k])[0] < first
    {
      SeekDecides(Numbers(cursor[i]), first);
      i := i + 1;
    }
    if i < |cursor| {
      SeekDecides(Numbers(cursor[i]), first);
    }
    forall k | i <= k < |cursor|
      ensures first <= Numbers(cursor[k])[0]
    {
      if i < k {
        HeightsAscend(cursor, index, i, k);
      }
    }
  }

  /** The scan visits exactly the keys with a height from After(from) to to, each once, in the order of the cursor. */
  method Scan(cursor: seq<Key>, ghost index: set<Key>, from: Height, to: Height) returns (found: seq<Key>)
    requires Lists(cursor, index)
    ensures forall k :: k in found <==> k in index && |Numbers(k)| == 3 && After(from) <= Numbers(k)[0] <= to
    ensures forall i, j | 0 <= i < j < |found| :: found[i] != found[j]
    ensures exists lo, hi | 0 <= lo <= hi <= |cursor| :: found == cursor[lo..hi]
  {
    hide SqliteVarints.Written, SqliteVarints.Key, SqliteVarints.Before;
    var i := Seek(cursor, index, After(from));
    ghost var lo := i;
    found := [];
    while i < |cursor|
      invariant lo <= i <= |cursor| && found == cursor[lo..i]
      invariant forall k | lo <= k < i :: Numbers(cursor[k])[0] <= to
    {
      var height, amount, globalIndex := Parse(Suffix(cursor[i]), Numbers(cursor[i]));
      if height > to {
        break;
      }
      assert cursor[lo..i + 1] == cursor[lo..i] + [cursor[i]];
      found := found + [cursor[i]];
      i := i + 1;
    }
    RestIsHigher(cursor, index, i, to);
    Found(cursor, index, lo, i, After(from), to);
  }

  lemma {:induction false} RestIsHigher(cursor: seq<Key>, index: set<Key>, i: nat, to: Height)
    requires Lists(cursor, index) && i <= |cursor| && (i < |cursor| ==> Numbers(cursor[i])[0] > to)
    ensures forall k | i <= k < |cursor| :: Numbers(cursor[k])[0] > to
  {
    forall k | i < k < |cursor|
      ensures Numbers(cursor[k])[0] > to
    {
      HeightsAscend(cursor, index, i, k);
    }
  }

  lemma {:induction false} Found(cursor: seq<Key>, index: set<Key>, lo: nat, hi: nat, first: Height, last: Height)
    requires Lists(cursor, index) && lo <= hi <= |cursor|
    requires forall k | 0 <= k < lo :: Numbers(cursor[k])[0] < first
    requires forall k | lo <= k < hi :: first <= Numbers(cursor[k])[0] <= last
    requires forall k | hi <= k < |cursor| :: last < Numbers(cursor[k])[0]
    ensures var found := cursor[lo..hi];
            && (forall k :: k in found <==> k in index && |Numbers(k)| == 3 && first <= Numbers(k)[0] <= last)
            && forall i, j | 0 <= i < j < |found| :: found[i] != found[j]
  {
    hide Lists, Numbers;
    ListsDistinct(cursor, index);
    var found := cursor[lo..hi];
    forall k
      ensures k in found <==> k in index && |Numbers(k)| == 3 && first <= Numbers(k)[0] <= last
    {
      FoundOne(cursor, index, lo, hi, first, last, k);
    }
  }

  lemma {:induction false} ListsDistinct(cursor: seq<Key>, index: set<Key>)
    requires Lists(cursor, index)
    ensures forall k :: k in cursor <==> k in index
    ensures forall i | 0 <= i < |cursor| :: |Numbers(cursor[i])| == 3
    ensures forall i, j | 0 <= i < j < |cursor| :: cursor[i] != cursor[j]
  {
    hide SqliteVarints.Before, Numbers;
    forall i, j | 0 <= i < j < |cursor|
      ensures cursor[i] != cursor[j]
    {
      HeightsAscend(cursor, index, i, j);
    }
  }

  lemma {:induction false} FoundOne(cursor: seq<Key>, index: set<Key>, lo: nat, hi: nat, first: Height, last: Height,
                                    k: Key)
    requires lo <= hi <= |cursor| && forall k :: k in cursor <==> k in index
    requires forall i | 0 <= i < |cursor| :: |Numbers(cursor[i])| == 3
    requires forall k | 0 <= k < lo :: Numbers(cursor[k])[0] < first
    requires forall k | lo <= k < hi :: first <= Numbers(cursor[k])[0] <= last
    requires forall k | hi <= k < |cursor| :: last < Numbers(cursor[k])[0]
    ensures k in cursor[lo..hi] <==> k in index && |Numbers(k)| == 3 && first <= Numbers(k)[0] <= last
  {
    hide Numbers;
    var found := cursor[lo..hi];
    if k in found {
      var i :| 0 <= i < |found| && found[i] == k;
      assert cursor[lo + i] == k;
    }
    if k in index && |Numbers(k)| == 3 && first <= Numbers(k)[0] <= last {
      var i :| 0 <= i < |cursor| && cursor[i] == k;
      assert found[i - lo] == k;
    }
  }

  // ---- the two scans ----

  /** The unspent index: of the whole wallet, or of one address. */
  function UnspentIndex(db: Db, a: Address): set<Key> {
    set k | k in db.Keys && if a == EVERYTHING then k.UnspentKey? else k.AddressKey? && k.address == a
  }

  function UnlockedIndex(db: Db): set<Key> {
    set k | k in db.Keys && k.UnlockedKey?
  }

  /** The keys that for_each_in_unspent_index visits are those that the queries are stated with. */
  method ScanUnspent(db: Db, cursor: seq<Key>, a: Address, from: Height, to: Height) returns (found: seq<Key>)
    requires Lists(cursor, UnspentIndex(db, a))
    ensures forall k :: k in found <==> k in UnspentKeys(db, a, from, to)
    ensures forall i, j | 0 <= i < j < |found| :: found[i] != found[j]
  {
    hide Lists;
    found := Scan(cursor, UnspentIndex(db, a), from, to);
  }

  /** And so are those that read_unlock_index keeps. */
  method ScanUnlocked(db: Db, cursor: seq<Key>, a: Address, from: Height, to: Height) returns (found: seq<Key>)
    requires from <= MAX_HEIGHT && Lists(cursor, UnlockedIndex(db)) && forall k <- UnlockedIndex(db) ::
             db[k].OutputValue?
    ensures forall k :: k in found <==> k in UnlockedKeys(db, a, from, to)
    ensures forall i, j | 0 <= i < j < |found| :: found[i] != found[j]
  {
    hide Lists;
    found := [];
    if from != MAX_HEIGHT && from >= to {
      return;
    }
    var visited := Scan(cursor, UnlockedIndex(db), from, to);
    for i := 0 to |visited|
      invariant forall k :: k in found <==>
                k in visited[..i] && k in db && (a == EVERYTHING || db[k].output.address == a)
      invariant forall x, y | 0 <= x < y < |found| :: found[x] != found[y]
    {
      assert visited[i] in UnlockedIndex(db);
      if a == EVERYTHING || db[visited[i]].output.address == a {
        found := found + [visited[i]];
      }
    }
    assert visited[..|visited|] == visited;
  }
}
