/** How a node finds out where its chain parts from the chain of a peer: it sends hashes of its chain, dense at the tip
    and then ever further apart, and the peer answers with its own chain from the first block that both have. */
module Syncing {
  import opened ChainTypes
  import opened BlockTree
  import opened BlockChains

  function Pow2(n: nat): (p: nat)
    ensures p >= 1
  {
    if n == 0 then 1 else 2 * Pow2(n - 1)
  }

  /** How far below the tip the k-th hash is: 0 to 10, then 12, 16, 24, 40 and so on. */
  function Offset(k: nat): nat {
    if k <= 10 then k else 8 + Pow2(k - 9)
  }

  lemma {:induction false} OffsetsGrow(j: nat, k: nat)
    requires j < k
    ensures Offset(j) < Offset(k)
    decreases k
  {
    if j < k - 1 {
      OffsetsGrow(j, k - 1);
    }
    NextOffset(k - 1);
  }

  lemma {:induction false} NextOffset(k: nat)
    ensures Offset(k + 1) == Offset(k) + if k < 10 then 1 else Pow2(k - 9)
    ensures Offset(k + 1) <= 2 * Offset(k) || k == 0
  {
    if k == 10 {
      assert Pow2(1) == 2 * Pow2(0) && Pow2(2) == 2 * Pow2(1);
    }
  }

  /** The first n hashes below the tip of a chain. */
  ghost predicate IsSparse(chain: seq<Hash>, path: seq<Hash>, n: nat) {
    && n <= |path|
    && forall k | 0 <= k < n :: Offset(k) < |chain| && path[k] == chain[|chain| - 1 - Offset(k)]
  }

  /** A locator: as many hashes as fit, and genesis. */
  ghost predicate IsLocator(chain: seq<Hash>, path: seq<Hash>) {
    exists n: nat {:trigger IsSparse(chain, path, n)} ::
      && n > 0 && IsSparse(chain, path, n) && Offset(n) >= |chain|
      && path[n..] == if Offset(n - 1) == |chain| - 1 then [] else [chain[0]]
  }

  method GetSparseChain(headers: Headers, genesis: Hash, chain: seq<Hash>) returns (path: seq<Hash>)
    requires Tree(headers, genesis) && MainChain(headers, chain) && chain[0] == genesis && |chain| <= MAX_BLOCK_HEIGHT
    ensures IsLocator(chain, path)
  {
    assert chain != [];
    hide Tree, MainChain;
    var tipHeight := |chain| - 1;
    path := [];
    var jump := 0;
    while tipHeight >= jump
      invariant jump == Offset(|path|) && IsSparse(chain, path, |path|)
      decreases tipHeight - jump
    {
      path := path + [chain[tipHeight - jump]];
      NextOffset(|path| - 1);
      if |path| <= 10 {
        jump := jump + 1;
      } else {
        assert Pow2(|path| - 10) < 0x8000_0000; // the shift does not overflow
        jump := jump + Pow2(|path| - 10);
      }
    }
    assert path != [];
    GenesisIsFirst(headers, genesis, chain, tipHeight - Offset(|path| - 1));
    ghost var n := |path|;
    if path[|path| - 1] != genesis {
      path := path + [genesis];
    }
    assert IsSparse(chain, path, n);
  }

  lemma {:induction false} GenesisIsFirst(headers: Headers, genesis: Hash, chain: seq<Hash>, x: nat)
    requires Tree(headers, genesis) && MainChain(headers, chain) && x < |chain| && chain[0] == genesis
    ensures chain[x] == genesis <==> x == 0
  {
  }

  // ---- the answer ----

  function FirstKnown(headers: Headers, locator: seq<Hash>): (r: Option<Hash>)
    ensures r.Some? ==> r.value in headers && r.value in locator
  {
    if locator == [] then None
    else if locator[0] in headers then Some(locator[0])
    else FirstKnown(headers, locator[1..])
  }

  /** The highest block of the main chain that is an ancestor of b, or b. */
  ghost predicate IsJunction(headers: Headers, genesis: Hash, chain: seq<Hash>, b: Hash, x: Height)
    requires Tree(headers, genesis) && b in headers
  {
    && x <= headers[b].height && x < |chain| && chain[x] == At(headers, genesis, b, x)
    && forall y | x < y <= headers[b].height && y < |chain| :: chain[y] != At(headers, genesis, b, y)
  }

  method GetSyncHeadersChain(headers: Headers, genesis: Hash, chain: seq<Hash>, locator: seq<Hash>, maxCount: nat)
    returns (start: Height, result: seq<Hash>)
    requires Tree(headers, genesis) && MainChain(headers, chain) && chain[0] == genesis
    ensures FirstKnown(headers, locator).None? ==> start == |chain| && result == []
    ensures FirstKnown(headers, locator).Some? ==>
              && IsJunction(headers, genesis, chain, FirstKnown(headers, locator).value, start)
              && |result| <= maxCount && start + |result| <= |chain| && result == chain[start..start + |result|]
              && (|result| == maxCount || start + |result| == |chain|)
  {
    var k := 0;
    while k < |locator|
      invariant 0 <= k <= |locator| && FirstKnown(headers, locator) == FirstKnown(headers, locator[k..])
    {
      var b := locator[k];
      if b in headers {
        start := FindJunction(headers, genesis, chain, b);
        result := [];
        var height := start;
        while |result| < maxCount && height <= |chain| - 1
          invariant height == start + |result| <= |chain| && |result| <= maxCount
          invariant result == chain[start..height]
        {
          result := result + [chain[height]];
          height := height + 1;
        }
        return;
      }
      assert locator[k..][1..] == locator[k + 1..];
      k := k + 1;
    }
    return |chain|, [];
  }

  method FindJunction(headers: Headers, genesis: Hash, chain: seq<Hash>, b: Hash) returns (x: Height)
    requires Tree(headers, genesis) && MainChain(headers, chain) && chain[0] == genesis && b in headers
    ensures IsJunction(headers, genesis, chain, b, x)
  {
    var bid := b;
    AtSelf(headers, genesis, b);
    while headers[bid].height != 0
      invariant bid in headers && headers[bid].height <= headers[b].height
      invariant bid == At(headers, genesis, b, headers[bid].height)
      invariant forall y | headers[bid].height < y <= headers[b].height && y < |chain| ::
                chain[y] != At(headers, genesis, b, y)
      decreases headers[bid].height
    {
      if headers[bid].height < |chain| && chain[headers[bid].height] == bid {
        break;
      }
      AtParent(headers, genesis, b, headers[bid].height);
      bid := headers[bid].previous;
    }
    x := headers[bid].height;
  }

  lemma {:induction false} AtSelf(headers: Headers, genesis: Hash, b: Hash)
    requires Tree(headers, genesis) && b in headers
    ensures At(headers, genesis, b, headers[b].height) == b
  {
  }

  lemma {:induction false} AtParent(headers: Headers, genesis: Hash, b: Hash, x: Height)
    requires Tree(headers, genesis) && b in headers && 0 < x <= headers[b].height
    ensures At(headers, genesis, b, x - 1) == headers[At(headers, genesis, b, x)].previous
  {
    var c := At(headers, genesis, b, x);
    AtAt(headers, genesis, b, x, x - 1);
    assert At(headers, genesis, c, x - 1) == At(headers, genesis, headers[c].previous, x - 1);
  }

  // ---- how deep the answer starts ----

  /** Two nodes that have the same block agree on its header. */
  ghost predicate Agree(h: Headers, g: Headers) {
    forall b | b in h && b in g :: h[b] == g[b]
  }

  /** The chains are the same up to height f, and not beyond. */
  ghost predicate PartAt(mine: seq<Hash>, theirs: seq<Hash>, f: Height) {
    && f < |mine| && f < |theirs| && mine[..f + 1] == theirs[..f + 1]
    && (f + 1 < |mine| && f + 1 < |theirs| ==> mine[f + 1] != theirs[f + 1])
  }

  /** Chains that part never meet again. */
  lemma {:induction false} ApartAfterwards(mine: seq<Hash>, h: Headers, theirs: seq<Hash>, g: Headers, f: Height,
                                           x: Height)
    requires MainChain(h, mine) && MainChain(g, theirs) && Agree(h, g) && PartAt(mine, theirs, f)
    requires f < x < |mine| && x < |theirs|
    ensures mine[x] != theirs[x]
  {
    if x > f + 1 {
      ApartAfterwards(mine, h, theirs, g, f, x - 1);
      assert h[mine[x]].previous == mine[x - 1] && g[theirs[x]].previous == theirs[x - 1];
    }
  }

  /** A block of my chain that the other node has, too, has the same ancestors there. */
  lemma {:induction false} SameAncestors(mine: seq<Hash>, h: Headers, g: Headers, genesis: Hash, n: Height, x: Height)
    requires MainChain(h, mine) && Tree(g, genesis) && Agree(h, g) && x <= n < |mine| && mine[n] in g
    ensures g[mine[n]].height == n && At(g, genesis, mine[n], x) == mine[x]
  {
    assert h[mine[n]] == g[mine[n]];
    if x < n {
      assert h[mine[n]].previous == mine[n - 1];
      SameAncestors(mine, h, g, genesis, n - 1, x);
    }
  }

  lemma {:induction false} KnownIsFirst(headers: Headers, locator: seq<Hash>, k: nat) returns (j: nat)
    requires k < |locator| && locator[k] in headers
    ensures j <= k && FirstKnown(headers, locator) == Some(locator[j])
  {
    if locator[0] in headers {
      j := 0;
    } else {
      j := KnownIsFirst(headers, locator[1..], k - 1);
      j := j + 1;
    }
  }

  /** Among the offsets of a locator, and the depth of genesis, one is at least d and at most 2 * d. */
  lemma {:induction false} OffsetNear(d: nat, n: nat) returns (k: nat)
    requires n > 0 && d <= Offset(n)
    ensures k <= n && d <= Offset(k) <= 2 * d
    decreases n
  {
    if d <= Offset(n - 1) {
      if n == 1 {
        k := 0;
      } else {
        k := OffsetNear(d, n - 1);
      }
    } else {
      k := n;
      NextOffset(n - 1);
    }
  }

  /** The block that the first known hash of a locator of mine stands for: it is at most twice as deep as the fork. */
  lemma {:induction false} FirstKnownIsNear(mine: seq<Hash>, locator: seq<Hash>, g: Headers, theirs: seq<Hash>,
                                            f: Height) returns (y: Height)
    requires IsLocator(mine, locator) && MainChain(g, theirs) && PartAt(mine, theirs, f)
    ensures y < |mine| && FirstKnown(g, locator) == Some(mine[y]) && |mine| - 1 - y <= 2 * (|mine| - 1 - f)
  {
    hide MainChain, IsLocator, FirstKnown, Offset;
    var tip := |mine| - 1;
    var n := Length(mine, locator);
    var k := OneIsNear(mine, locator, n, tip - f);
    var x := Depth(mine, n, k);
    assert mine[..f + 1][tip - x] == theirs[..f + 1][tip - x];
    assert theirs[tip - x] in g by { OnChain(g, theirs, tip - x); }
    var j := KnownIsFirst(g, locator, k);
    y := tip - Depth(mine, n, j);
  }

  lemma {:induction false} OnChain(g: Headers, theirs: seq<Hash>, x: Height)
    requires MainChain(g, theirs) && x < |theirs|
    ensures theirs[x] in g
  {
  }

  lemma {:induction false} Length(mine: seq<Hash>, locator: seq<Hash>) returns (n: nat)
    requires IsLocator(mine, locator)
    ensures n > 0 && IsSparse(mine, locator, n) && Offset(n) >= |mine| > 0
    ensures locator[n..] == if Offset(n - 1) == |mine| - 1 then [] else [mine[0]]
  {
    n :| n > 0 && IsSparse(mine, locator, n) && Offset(n) >= |mine|
         && locator[n..] == if Offset(n - 1) == |mine| - 1 then [] else [mine[0]];
    assert Offset(0) < |mine|;
  }

  /** How deep the block behind the k-th hash is: genesis comes after the n others. */
  ghost function Depth(mine: seq<Hash>, n: nat, k: nat): int {
    if k < n then Offset(k) else |mine| - 1
  }

  /** Of the hashes of a locator, one is at least d deep and at most twice as deep, and those before it are not
      deeper. */
  lemma {:induction false} OneIsNear(mine: seq<Hash>, locator: seq<Hash>, n: nat, d: nat) returns (k: nat)
    requires n > 0 && IsSparse(mine, locator, n) && Offset(n) >= |mine| > d
    requires locator[n..] == if Offset(n - 1) == |mine| - 1 then [] else [mine[0]]
    ensures k < |locator| && d <= Depth(mine, n, k) <= 2 * d && Depth(mine, n, k) < |mine|
    ensures forall j | 0 <= j <= k ::
            0 <= Depth(mine, n, j) <= Depth(mine, n, k) && locator[j] == mine[|mine| - 1 - Depth(mine, n, j)]
  {
    hide Pow2;
    k := OffsetNear(d, n);
    if k == n && Offset(n - 1) == |mine| - 1 {
      k := n - 1;
    }
    assert k == n ==> locator[n] == locator[n..][0];
    forall j | 0 <= j < k
      ensures Offset(j) < Offset(k) || k == n
    {
      OffsetsGrow(j, k);
    }
  }

  /** The answer to a locator starts at a block of both chains, not above the fork, and below the tip of the one who
      asks at most twice as deep as the fork. */
  lemma {:induction false} AnswerIsNear(mine: seq<Hash>, h: Headers, locator: seq<Hash>, g: Headers, theirs: seq<Hash>,
                                        genesis: Hash,
                     f: Height, start: Height)
    requires Tree(h, genesis) && MainChain(h, mine) && IsLocator(mine, locator)
    requires Tree(g, genesis) && MainChain(g, theirs) && Agree(h, g) && PartAt(mine, theirs, f)
    requires FirstKnown(g, locator).Some? ==> IsJunction(g, genesis, theirs, FirstKnown(g, locator).value, start)
    ensures FirstKnown(g, locator).Some?
    ensures start <= f && theirs[start] == mine[start] && |mine| - 1 - start <= 2 * (|mine| - 1 - f)
  {
    var y := FirstKnownIsNear(mine, locator, g, theirs, f);
    hide IsLocator, Tree, MainChain;
    SameAncestors(mine, h, g, genesis, y, start);
    if start > f {
      ApartAfterwards(mine, h, theirs, g, f, start);
    }
    var least := if y <= f then y else f;
    SameAncestors(mine, h, g, genesis, y, least);
    assert mine[..f + 1][least] == theirs[..f + 1][least];
  }
}
