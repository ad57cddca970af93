/** Block headers as a tree that grows from genesis, and the search for the block where two branches part. */
module BlockTree {
  import opened ChainTypes

  datatype Header = Header(hash: Hash, previous: Hash, height: Height, timestamp: nat, cumulativeDifficulty: nat)

  type Headers = map<Hash, Header>

  ghost predicate Tree(headers: Headers, genesis: Hash) {
    && genesis in headers && headers[genesis].height == 0
    && forall b {:trigger headers[b].previous} | b in headers ::
         && headers[b].hash == b
         && (headers[b].height == 0 ==> b == genesis)
         && (headers[b].height > 0 ==>
               headers[b].previous in headers && headers[headers[b].previous].height + 1 == headers[b].height)
  }

  /** The ancestor of b at height x; b is its own ancestor. */
  ghost function At(headers: Headers, genesis: Hash, b: Hash, x: Height): (r: Hash)
    requires Tree(headers, genesis) && b in headers && x <= headers[b].height
    ensures r in headers && headers[r].height == x
    decreases headers[b].height
  {
    if x == headers[b].height then b else At(headers, genesis, headers[b].previous, x)
  }

  lemma {:induction false} AtAt(headers: Headers, genesis: Hash, b: Hash, x: Height, y: Height)
    requires Tree(headers, genesis) && b in headers && y <= x <= headers[b].height
    ensures At(headers, genesis, At(headers, genesis, b, x), y) == At(headers, genesis, b, y)
    decreases headers[b].height
  {
    if x < headers[b].height {
      AtAt(headers, genesis, headers[b].previous, x, y);
    }
  }

  ghost predicate CommonAt(headers: Headers, genesis: Hash, b: Hash, c: Hash, x: Height)
    requires Tree(headers, genesis) && b in headers && c in headers
  {
    x <= headers[b].height && x <= headers[c].height && At(headers, genesis, b, x) == At(headers, genesis, c, x)
  }

  /** The blocks of the branch of b from b down to, and without, height x. */
  ghost function PathDown(headers: Headers, genesis: Hash, b: Hash, x: Height): (r: seq<Hash>)
    requires Tree(headers, genesis) && b in headers && x <= headers[b].height
    ensures |r| == headers[b].height - x
    decreases headers[b].height
  {
    if x == headers[b].height then [] else [b] + PathDown(headers, genesis, headers[b].previous, x)
  }

  lemma {:induction false} PathDownExtends(headers: Headers, genesis: Hash, b: Hash, x: Height)
    requires Tree(headers, genesis) && b in headers && 0 < x <= headers[b].height
    ensures PathDown(headers, genesis, b, x - 1) == PathDown(headers, genesis, b, x) + [At(headers, genesis, b, x)]
    decreases headers[b].height
  {
    if x < headers[b].height {
      PathDownExtends(headers, genesis, headers[b].previous, x);
    }
  }

  /** path has been walked from b down to id. */
  ghost predicate Walked(headers: Headers, genesis: Hash, b: Hash, id: Hash, path: seq<Hash>)
    requires Tree(headers, genesis) && b in headers
  {
    && id in headers && headers[id].height <= headers[b].height
    && At(headers, genesis, b, headers[id].height) == id
    && path == PathDown(headers, genesis, b, headers[id].height)
  }

  lemma {:induction false} WalkedOn(headers: Headers, genesis: Hash, b: Hash, id: Hash, path: seq<Hash>)
    requires Tree(headers, genesis) && b in headers && Walked(headers, genesis, b, id, path) && headers[id].height > 0
    ensures Walked(headers, genesis, b, headers[id].previous, path + [id])
  {
    var x := headers[id].height;
    AtAt(headers, genesis, b, x, x - 1);
    PathDownExtends(headers, genesis, b, x);
    assert At(headers, genesis, id, x - 1) == headers[id].previous;
  }

  /** The branches of b and c share no block above height x. */
  ghost predicate ApartAbove(headers: Headers, genesis: Hash, b: Hash, c: Hash, x: Height)
    requires Tree(headers, genesis) && b in headers && c in headers
  {
    forall y: Height :: x < y ==> !CommonAt(headers, genesis, b, c, y)
  }

  /** The height of the last block that the branches of b and c share. */
  ghost predicate LastCommon(headers: Headers, genesis: Hash, b: Hash, c: Hash, x: Height)
    requires Tree(headers, genesis) && b in headers && c in headers
  {
    CommonAt(headers, genesis, b, c, x) && ApartAbove(headers, genesis, b, c, x)
  }

  /** The first n blocks of the branch of b, genesis first. */
  ghost function Branch(headers: Headers, genesis: Hash, b: Hash, n: nat): (r: seq<Hash>)
    requires Tree(headers, genesis) && b in headers && n <= headers[b].height + 1
    ensures |r| == n && forall x: nat | x < n :: r[x] == At(headers, genesis, b, x)
    ensures forall c <- r :: c in headers
  {
    if n == 0 then [] else Branch(headers, genesis, b, n - 1) + [At(headers, genesis, b, n - 1)]
  }

  /** The search first levels the longer branch with the other one. */
  method WalkTo(headers: Headers, ghost genesis: Hash, b: Hash, x: Height) returns (id: Hash, path: seq<Hash>)
    requires Tree(headers, genesis) && b in headers
    ensures Walked(headers, genesis, b, id, path)
    ensures headers[id].height == if x <= headers[b].height then x else headers[b].height
  {
    id, path := b, [];
    while headers[id].height > x
      invariant Walked(headers, genesis, b, id, path)
      invariant headers[id].height == headers[b].height || headers[id].height >= x
      decreases headers[id].height
    {
      WalkedOn(headers, genesis, b, id, path);
      path := path + [id];
      id := headers[id].previous;
    }
  }

  /** Returns the last block the branches of b and c share, with the two paths that lead down to it. */
  method GetCommonBlock(headers: Headers, ghost genesis: Hash, b: Hash, c: Hash)
    returns (common: Hash, chain1: seq<Hash>, chain2: seq<Hash>)
    requires Tree(headers, genesis) && b in headers && c in headers
    ensures Walked(headers, genesis, b, common, chain1)
    ensures Walked(headers, genesis, c, common, chain2)
    ensures LastCommon(headers, genesis, b, c, headers[common].height)
  {
    var id1, id2;
    id1, chain1 := WalkTo(headers, genesis, b, headers[c].height);
    id2, chain2 := WalkTo(headers, genesis, c, headers[id1].height);
    while id1 != id2
      invariant Walked(headers, genesis, b, id1, chain1)
      invariant Walked(headers, genesis, c, id2, chain2)
      invariant headers[id1].height == headers[id2].height
      invariant ApartAbove(headers, genesis, b, c, headers[id1].height)
      decreases headers[id1].height
    {
      WalkedOn(headers, genesis, b, id1, chain1);
      WalkedOn(headers, genesis, c, id2, chain2);
      ApartBelow(headers, genesis, b, c, id1, id2);
      chain1, chain2 := chain1 + [id1], chain2 + [id2];
      id1, id2 := headers[id1].previous, headers[id2].previous;
    }
    common := id1;
  }

  lemma {:induction false} ApartBelow(headers: Headers, genesis: Hash, b: Hash, c: Hash, id1: Hash, id2: Hash)
    requires Tree(headers, genesis) && b in headers && c in headers && id1 in headers && id2 in headers
    requires headers[id1].height == headers[id2].height && id1 != id2
    requires headers[id1].height <= headers[b].height && At(headers, genesis, b, headers[id1].height) == id1
    requires headers[id2].height <= headers[c].height && At(headers, genesis, c, headers[id2].height) == id2
    requires ApartAbove(headers, genesis, b, c, headers[id1].height)
    ensures headers[id1].height > 0 && ApartAbove(headers, genesis, b, c, headers[id1].height - 1)
  {
    forall y: Height | headers[id1].height - 1 < y
      ensures !CommonAt(headers, genesis, b, c, y)
    {
    }
  }
}
