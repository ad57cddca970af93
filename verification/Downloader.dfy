/** Downloading a chain of blocks from several peers at once. The event loop runs one handler at a time; a handler that
    disconnects a peer runs the handler for that, and so on, before it continues. */
module Downloading {
  import opened ChainTypes

  type Client = nat

  const TOTAL_DOWNLOAD_BLOCKS := 400
  const TOTAL_DOWNLOAD_WINDOW := 2000
  const GOOD_LAG := 5

  datatype Status = Downloading | Downloaded | Preparing | Prepared

  datatype Cell = Cell(bid: Hash, height: Height, client: Option<Client>, status: Status, protected: bool)

  /** What the node knows about its peers while a handler runs: their heights, those whose top block it does not have,
      its own height, how many peers may lag, and whether an import keeps the downloader waiting. */
  datatype Peers = Peers(heights: map<Client, Height>, worth: set<Client>, tipHeight: Height, mayLag: nat,
      importing: bool) {
    function HeightOf(c: Client): Height {
      if c in heights then heights[c] else 0
    }
  }

  // ---- counting cells ----

  function One(b: bool): nat {
    if b then 1 else 0
  }

  /** How many cells are being downloaded from a client. */
  function CountOf(window: seq<Cell>, who: Client): nat {
    if window == [] then 0 else CountOf(window[..|window| - 1], who) + One(window[|window| - 1].client == Some(who))
  }

  /** How many cells are being downloaded. */
  function BusyCells(window: seq<Cell>): nat {
    if window == [] then 0 else BusyCells(window[..|window| - 1]) + One(window[|window| - 1].client.Some?)
  }

  lemma {:induction false} CountUpdate(window: seq<Cell>, i: nat, c: Cell, who: Client)
    requires i < |window|
    ensures CountOf(window[i := c], who) + One(window[i].client == Some(who))
            == CountOf(window, who) + One(c.client == Some(who))
    ensures BusyCells(window[i := c]) + One(window[i].client.Some?) == BusyCells(window) + One(c.client.Some?)
  {
    var n := |window| - 1;
    var after := window[i := c];
    if i == n {
      assert after[..n] == window[..n];
    } else {
      CountUpdate(window[..n], i, c, who);
      assert after[..n] == window[..n][i := c];
    }
  }

  lemma {:induction false} CountAppend(window: seq<Cell>, c: Cell, who: Client)
    ensures CountOf(window + [c], who) == CountOf(window, who) + One(c.client == Some(who))
    ensures BusyCells(window + [c]) == BusyCells(window) + One(c.client.Some?)
  {
    assert (window + [c])[..|window|] == window;
  }

  lemma {:induction false} CountDropFirst(window: seq<Cell>, who: Client)
    requires window != []
    ensures CountOf(window, who) == One(window[0].client == Some(who)) + CountOf(window[1..], who)
    ensures BusyCells(window) == One(window[0].client.Some?) + BusyCells(window[1..])
  {
    var n := |window| - 1;
    if n == 0 {
      assert window[..0] == [] && window[1..] == [];
    } else {
      CountDropFirst(window[..n], who);
      assert window[..n][1..] == window[1..][..n - 1];
    }
  }

  /** The window after a client has gone. */
  function Released(window: seq<Cell>, who: Client): seq<Cell> {
    if window == [] then []
    else
      var c := window[|window| - 1];
      Released(window[..|window| - 1], who) + [if c.client == Some(who) then c.(client := None) else c]
  }

  lemma {:induction false} ReleasedShape(window: seq<Cell>, who: Client)
    ensures |Released(window, who)| == |window|
    ensures forall i | 0 <= i < |window| ::
              Released(window, who)[i] == if window[i].client == Some(who) then window[i].(client := None)
                  else window[i]
  {
    if window != [] {
      ReleasedShape(window[..|window| - 1], who);
    }
  }

  lemma {:induction false} ReleasedCounts(window: seq<Cell>, who: Client, c: Client)
    ensures CountOf(Released(window, who), c) == if c == who then 0 else CountOf(window, c)
    ensures BusyCells(Released(window, who)) + CountOf(window, who) == BusyCells(window)
  {
    if window != [] {
      var n := |window| - 1;
      ReleasedCounts(window[..n], who, c);
      CountAppend(Released(window[..n], who), if window[n].client == Some(who) then window[n].(client := None)
          else window[n], c);
    }
  }

  // ---- the bookkeeping ----

  /** Each client's counter is the number of cells that are being downloaded from it, and only known clients and cells
      that wait for their block are concerned. */
  ghost predicate BooksOk(good: map<Client, nat>, total: int, window: seq<Cell>) {
    && (forall c <- good :: good[c] == CountOf(window, c))
    && total == BusyCells(window)
    && (forall i | 0 <= i < |window| && window[i].client.Some? ::
        window[i].status.Downloading? && window[i].client.value in good)
  }

  /** The expected heights follow each other, and the rest of the chain continues them. */
  ghost predicate HeightsOk(window: seq<Cell>, chain: seq<Hash>, chainStart: Height) {
    && (forall i | 0 < i < |window| :: window[i].height == (window[i - 1].height + 1) % UINT32_RANGE)
    && (window != [] && chain != [] ==> chainStart == (window[|window| - 1].height + 1) % UINT32_RANGE)
  }

  function Assigned(window: seq<Cell>, i: nat, who: Client): seq<Cell>
    requires i < |window|
  {
    window[i := window[i].(client := Some(who))]
  }

  lemma {:induction false} StartKeepsBooks(good: map<Client, nat>, total: int, window: seq<Cell>, i: nat, who: Client)
    requires BooksOk(good, total, window) && i < |window| && window[i].client.None? && window[i].status.Downloading?
             && who in good
    ensures BooksOk(good[who := good[who] + 1], total + 1, Assigned(window, i, who))
  {
    forall c: Client
      ensures CountOf(Assigned(window, i, who), c) == CountOf(window, c) + One(c == who)
      ensures BusyCells(Assigned(window, i, who)) == BusyCells(window) + 1
    {
      CountUpdate(window, i, window[i].(client := Some(who)), c);
    }
  }

  lemma {:induction false} StopKeepsBooks(good: map<Client, nat>, total: int, window: seq<Cell>, i: nat, status: Status)
    requires BooksOk(good, total, window) && i < |window| && window[i].client.Some?
    ensures var who := window[i].client.value;
            && who in good && good[who] > 0 && total > 0
            && BooksOk(good[who := good[who] - 1], total - 1, window[i := window[i].(client := None, status := status)])
  {
    var who := window[i].client.value;
    var after := window[i := window[i].(client := None, status := status)];
    forall c: Client
      ensures CountOf(after, c) + One(c == who) == CountOf(window, c) && BusyCells(after) + 1 == BusyCells(window)
    {
      CountUpdate(window, i, window[i].(client := None, status := status), c);
    }
    assert CountOf(after, who) + 1 == CountOf(window, who);
  }

  /** Cells without a client may come, go and change. */
  lemma {:induction false} IdleCellKeepsBooks(good: map<Client, nat>, total: int, window: seq<Cell>, i: nat, c: Cell)
    requires BooksOk(good, total, window) && i < |window| && c.client == window[i].client
    requires c.client.Some? ==> c.status == window[i].status
    ensures BooksOk(good, total, window[i := c])
  {
    CountUpdate(window, i, c, 0);
    forall who: Client
      ensures CountOf(window[i := c], who) == CountOf(window, who)
    {
      CountUpdate(window, i, c, who);
    }
  }

  lemma {:induction false} AppendKeepsBooks(good: map<Client, nat>, total: int, window: seq<Cell>, c: Cell)
    requires BooksOk(good, total, window) && c.client.None?
    ensures BooksOk(good, total, window + [c])
  {
    CountAppend(window, c, 0);
    forall who: Client
      ensures CountOf(window + [c], who) == CountOf(window, who)
    {
      CountAppend(window, c, who);
    }
  }

  lemma {:induction false} DropLastKeepsBooks(good: map<Client, nat>, total: int, window: seq<Cell>)
    requires BooksOk(good, total, window) && window != [] && window[|window| - 1].client.None?
    ensures BooksOk(good, total, window[..|window| - 1])
  {
  }

  lemma {:induction false} DropFirstKeepsBooks(good: map<Client, nat>, total: int, window: seq<Cell>)
    requires BooksOk(good, total, window) && window != [] && window[0].client.None?
    ensures BooksOk(good, total, window[1..])
  {
    CountDropFirst(window, 0);
    forall who: Client
      ensures CountOf(window[1..], who) == CountOf(window, who)
    {
      CountDropFirst(window, who);
    }
  }

  lemma {:induction false} ReleaseKeepsBooks(good: map<Client, nat>, total: int, window: seq<Cell>, who: Client)
    requires BooksOk(good, total, window)
    ensures var counted := if who in good then good[who] else 0;
            total >= counted && BooksOk(good - {who}, total - counted, Released(window, who))
  {
    ReleasedShape(window, who);
    ReleasedCounts(window, who, who);
    forall c: Client
      ensures CountOf(Released(window, who), c) == if c == who then 0 else CountOf(window, c)
    {
      ReleasedCounts(window, who, c);
    }
    if who !in good {
      NobodysCells(window, who);
    }
  }

  lemma {:induction false} NobodysCells(window: seq<Cell>, who: Client)
    requires forall i | 0 <= i < |window| :: window[i].client != Some(who)
    ensures CountOf(window, who) == 0
  {
    if window != [] {
      NobodysCells(window[..|window| - 1], who);
    }
  }

  // ---- the total is the sum of the counters ----

  ghost function SumOf(good: map<Client, nat>): nat
    decreases |good|
  {
    if good == map[] then 0
    else
      var c :| c in good;
      good[c] + SumOf(good - {c})
  }

  /** total_downloading_blocks is the sum of what the clients are counted for. */
  lemma {:induction false} TotalIsSum(good: map<Client, nat>, total: int, window: seq<Cell>)
    requires BooksOk(good, total, window)
    ensures total == SumOf(good)
    decreases |good|
  {
    if good == map[] {
      NobodyIsBusy(window);
    } else {
      var c :| c in good && SumOf(good) == good[c] + SumOf(good - {c});
      ReleaseKeepsBooks(good, total, window, c);
      TotalIsSum(good - {c}, total - good[c], Released(window, c));
    }
  }

  lemma {:induction false} NobodyIsBusy(window: seq<Cell>)
    requires forall i | 0 <= i < |window| :: window[i].client.None?
    ensures BusyCells(window) == 0
  {
    if window != [] {
      NobodyIsBusy(window[..|window| - 1]);
    }
  }

  // ---- choosing a client ----

  function Speed(downloaded: seq<Client>, c: Client): (s: nat)
    ensures 1 <= s <= TOTAL_DOWNLOAD_BLOCKS / 4
  {
    var n := multiset(downloaded)[c];
    if n < 1 then 1 else if n > TOTAL_DOWNLOAD_BLOCKS / 4 then TOTAL_DOWNLOAD_BLOCKS / 4 else n
  }

  lemma {:induction false} RatioTransitive(a: nat, s: nat, b: nat, t: nat, c: nat, u: nat)
    requires s >= 1 && t >= 1 && u >= 1 && a * t <= b * s && b * u <= c * t
    ensures a * u <= c * s
  {
    var x, y := a * u, c * s;
    assert x * t <= y * t by {
      assert x * t == (a * t) * u && y * t == (c * t) * s && (b * s) * u == (b * u) * s;
      assert (a * t) * u <= (b * s) * u;
      assert (b * u) * s <= (c * t) * s;
    }
    CancelFactor(x, y, t);
  }

  lemma {:induction false} CancelFactor(x: nat, y: nat, t: nat)
    requires t >= 1 && x * t <= y * t
    ensures x <= y
  {
    if x > y {
      ScaleLess(y, x, t);
    }
  }

  lemma {:induction false} ScaleLess(y: nat, x: nat, t: nat)
    requires y < x && t >= 1
    ensures y * t < x * t
  {
    assert (x - y) * t >= 1;
  }

  /** c is among the busy clients that can deliver, and none of those is less busy for its speed. */
  ghost predicate IsBest(good: map<Client, nat>, downloaded: seq<Client>, able: set<Client>, r: Option<Client>) {
    match r
    case None => able == {}
    case Some(c) => c in able && c in good && forall d <- able | d in good ::
        good[c] * Speed(downloaded, d) <= good[d] * Speed(downloaded, c)
  }

  lemma {:induction false} BestStep(good: map<Client, nat>, downloaded: seq<Client>, able: set<Client>,
                                    r: Option<Client>, w: Client)
    requires IsBest(good, downloaded, able, r) && w in good && able <= good.Keys
    ensures IsBest(good, downloaded, able + {w},
                   if r.None? || good[w] * Speed(downloaded, r.value) < good[r.value] * Speed(downloaded, w)
                       then Some(w) else r)
  {
    if r.Some? && good[w] * Speed(downloaded, r.value) < good[r.value] * Speed(downloaded, w) {
      forall d | d in able
        ensures good[w] * Speed(downloaded, d) <= good[d] * Speed(downloaded, w)
      {
        RatioTransitive(good[w], Speed(downloaded, w), good[r.value], Speed(downloaded, r.value), good[d],
            Speed(downloaded, d));
      }
    }
  }

  function Able(good: map<Client, nat>, peers: Peers, expected: Height): set<Client> {
    set c | c in good.Keys && peers.HeightOf(c) >= expected
  }

  /** The client with the fewest blocks for its speed, among those that have the block. */
  method PickClient(good: map<Client, nat>, downloaded: seq<Client>, peers: Peers, expected: Height)
    returns (r: Option<Client>)
    ensures IsBest(good, downloaded, Able(good, peers, expected), r)
  {
    r := None;
    var todo := good.Keys;
    ghost var seen := {};
    while todo != {}
      invariant seen <= good.Keys && todo <= good.Keys && seen == Able(good, peers, expected) - todo
      invariant IsBest(good, downloaded, seen, r)
    {
      hide IsBest, Speed;
      var c :| c in todo;
      if peers.HeightOf(c) >= expected {
        BestStep(good, downloaded, seen, r, c);
        BestIsKnown(good, downloaded, seen, r);
        seen := seen + {c};
        if r.None? || good[c] * Speed(downloaded, r.value) < good[r.value] * Speed(downloaded, c) {
          r := Some(c);
        }
      }
      todo := todo - {c};
    }
  }

  lemma {:induction false} BestIsKnown(good: map<Client, nat>, downloaded: seq<Client>, able: set<Client>,
                                       r: Option<Client>)
    requires IsBest(good, downloaded, able, r)
    ensures r.Some? ==> r.value in able && r.value in good
  {
  }

  // ---- the downloader ----

  /** Changing a cell, but not its height. */
  lemma {:induction false} SameHeights(window: seq<Cell>, i: nat, c: Cell, chain: seq<Hash>, chainStart: Height)
    requires HeightsOk(window, chain, chainStart) && i < |window| && c.height == window[i].height
    ensures HeightsOk(window[i := c], chain, chainStart)
  {
  }

  class Downloader {
    var goodClients: map<Client, nat>
    var total: int
    var downloaded: seq<Client>
    var chainClient: Option<Client>
    var requestSent: bool
    var window: seq<Cell>
    var chainStart: Height
    var chain: seq<Hash>
    ghost var added: seq<Cell> // what has been handed to add_block

    ghost predicate Valid()
      reads this
    {
      ValidBefore(chain)
    }

    /** As Valid, with what comes after the window. */
    ghost predicate ValidBefore(following: seq<Hash>)
      reads this
    {
      && BooksOk(goodClients, total, window)
      && HeightsOk(window, following, chainStart) && chainStart < UINT32_RANGE
      && total <= TOTAL_DOWNLOAD_BLOCKS && |window| <= TOTAL_DOWNLOAD_WINDOW
      && (chainClient.Some? ==> chainClient.value in goodClients)
      && (requestSent ==> chain == [] && window == [] && chainClient.Some?)
    }

    /** When nothing is left to download, a chain has been asked for, or nobody is ahead. */
    ghost predicate Asked(peers: Peers)
      reads this
    {
      chain == [] && window == [] ==> requestSent || goodClients.Keys !! peers.worth
    }

    /** The chain has been asked for from a peer whose top block we do not have. */
    ghost predicate AskedAhead(peers: Peers)
      reads this
    {
      chainClient.Some? && chainClient.value in peers.worth
    }

    /** Everything that can be under way is: the window is as full as the chain allows, every cell that waits for its
        block is assigned to a client unless enough is under way, and a chain is asked for when there is none. */
    ghost predicate Settled(peers: Peers)
      reads this
    {
      && (|window| == TOTAL_DOWNLOAD_WINDOW || chain == [])
      && (total == TOTAL_DOWNLOAD_BLOCKS || AllAssigned(window, |window|))
      && Asked(peers)
    }

    constructor ()
      ensures Valid() && goodClients == map[] && window == [] && added == []
    {
      goodClients, total, downloaded, chainClient, requestSent := map[], 0, [], None, false;
      window, chainStart, chain, added := [], 0, [], [];
    }

    method StartDownload(i: nat, who: Client)
      requires Valid() && i < |window| && window[i].client.None? && window[i].status.Downloading?
      requires who in goodClients && total < TOTAL_DOWNLOAD_BLOCKS
      modifies this`window, this`goodClients, this`total
      ensures Valid() && window == Assigned(old(window), i, who) && goodClients.Keys == old(goodClients).Keys
              && total == old(total) + 1
    {
      hide BooksOk, HeightsOk;
      StartKeepsBooks(goodClients, total, window, i, who);
      SameHeights(window, i, window[i].(client := Some(who)), chain, chainStart);
      window := window[i := window[i].(client := Some(who))];
      goodClients := goodClients[who := goodClients[who] + 1];
      total := total + 1;
    }

    /** The client of a cell is known and counted, so the check on its counter and on the total never fails. */
    method StopDownload(i: nat, success: bool, ghost following: seq<Hash>)
      requires ValidBefore(following) && i < |window|
      modifies this`window, this`goodClients, this`total, this`downloaded
      ensures ValidBefore(following) && goodClients.Keys == old(goodClients).Keys && total <= old(total)
      ensures old(window)[i].client.Some? ==> old(window)[i].status.Downloading? && total == old(total) - 1
      ensures |window| == |old(window)| && window[i].client.None?
      ensures window == old(window)[i := old(window)[i].(client := None, status := window[i].status)]
      ensures window[i].status == if success && old(window)[i].client.Some? then Downloaded else old(window)[i].status
    {
      ClientsCells(goodClients, total, window);
      hide BooksOk, HeightsOk;
      if !window[i].status.Downloading? || window[i].client.None? {
        return;
      }
      var who := window[i].client.value;
      var status := if success then Downloaded else Downloading;
      StopKeepsBooks(goodClients, total, window, i, status);
      SameHeights(window, i, window[i].(client := None, status := status), following, chainStart);
      assert who in goodClients && goodClients[who] != 0 && total != 0;
      goodClients := goodClients[who := goodClients[who] - 1];
      total := total - 1;
      if success {
        downloaded := downloaded + [who];
      }
      window := window[i := window[i].(client := None, status := status)];
    }

    /** Gives up the cells from i on, and the chain. */
    method CleanFrom(i: nat)
      requires Valid() && i <= |window|
      modifies this`window, this`goodClients, this`total, this`downloaded, this`chain
      ensures Valid() && |window| == i && chain == [] && goodClients.Keys == old(goodClients).Keys
      ensures forall k | 0 <= k < i :: window[k] == old(window)[k]
    {
      hide BooksOk;
      while |window| > i
        invariant ValidBefore(if |window| == |old(window)| then chain else []) && i <= |window| <= |old(window)|
                  && goodClients.Keys == old(goodClients).Keys
        invariant forall k | 0 <= k < |window| :: window[k] == old(window)[k]
      {
        StopDownload(|window| - 1, false, if |window| == |old(window)| then chain else []);
        DropLastKeepsBooks(goodClients, total, window);
        window := window[..|window| - 1];
      }
      chain := [];
    }

    /** Moves the front of the chain to the end of the window, one cell for each hash. */
    method FillWindow()
      requires Valid()
      modifies this`window, this`chain, this`chainStart
      ensures Valid() && (|window| == TOTAL_DOWNLOAD_WINDOW || chain == [])
      ensures Moved(old(window), old(chain), old(chainStart), window, chain)
    {
      hide BooksOk, HeightsOk, Moved;
      NothingMoved(window, chain, chainStart);
      while |window| < TOTAL_DOWNLOAD_WINDOW && chain != []
        invariant Valid() && Moved(old(window), old(chain), old(chainStart), window, chain)
        invariant chainStart == (old(chainStart) + |old(chain)| - |chain|) % UINT32_RANGE
        decreases |chain|
      {
        OneMoved(old(window), old(chain), old(chainStart), window, chain, chainStart);
        var cell := Cell(chain[0], chainStart, None, Downloading, false);
        AppendKeepsBooks(goodClients, total, window, cell);
        AppendKeepsHeights(window, chain, chainStart, cell);
        NextStart(old(chainStart), |old(chain)| - |chain|);
        window := window + [cell];
        chain := chain[1..];
        chainStart := (chainStart + 1) % UINT32_RANGE;
      }
    }

    /** Asks one of the peers that are ahead for the next part of the chain, when nothing is left to download. */
    method AdvanceChain(peers: Peers)
      requires Valid() && !peers.importing
      modifies this
      ensures Valid() && goodClients.Keys <= old(goodClients).Keys && added == old(added)
      ensures window == old(window) && chain == old(chain)
              && (window != [] ==> goodClients == old(goodClients) && total == old(total))
      ensures Asked(peers)
      ensures requestSent ==> (old(requestSent) && chainClient == old(chainClient)) || AskedAhead(peers)
      decreases goodClients.Keys, 0
    {
      if chain != [] || window != [] || requestSent {
        return;
      }
      chainClient := None;
      var lagging := set c | c in goodClients.Keys && peers.HeightOf(c) + GOOD_LAG < peers.tipHeight;
      var worth := set c | c in goodClients.Keys && c in peers.worth;
      if |lagging| > peers.mayLag {
        var who :| who in lagging;
        OnDisconnect(peers, who);
        return;
      }
      if worth == {} {
        assert forall c <- goodClients.Keys :: c in peers.worth ==> c in worth;
        return;
      }
      var who :| who in worth;
      chainClient, requestSent := Some(who), true;
    }

    /** A client has gone: its cells are free again. */
    method OnDisconnect(peers: Peers, who: Client)
      requires Valid()
      modifies this
      ensures Valid() && goodClients.Keys <= old(goodClients).Keys - {who} && added == old(added)
      ensures old(window) == [] && old(chain) == [] ==> window == [] && chain == []
      ensures !peers.importing ==> Settled(peers)
      ensures requestSent ==> (old(requestSent) && chainClient == old(chainClient)) || AskedAhead(peers)
      decreases goodClients.Keys - {who}, 2
    {
      Release(who);
      AdvanceDownload(peers);
    }

    method Release(who: Client)
      requires Valid()
      modifies this`total, this`goodClients, this`downloaded, this`window, this`chainClient, this`requestSent
      ensures Valid() && goodClients.Keys == old(goodClients).Keys - {who} && window == Released(old(window), who)
      ensures requestSent ==> old(requestSent) && chainClient == old(chainClient)
    {
      hide BooksOk;
      ReleaseKeepsBooks(goodClients, total, window, who);
      ReleasedShape(window, who);
      var counted := if who in goodClients then goodClients[who] else 0;
      assert total >= counted;
      total := total - counted;
      goodClients := goodClients - {who};
      downloaded := Others(downloaded, who);
      FreeCells(who);
      if chainClient == Some(who) {
        chainClient, requestSent := None, false;
      }
    }

    method FreeCells(who: Client)
      modifies this`window
      ensures window == Released(old(window), who)
    {
      var i := 0;
      while i < |window|
        invariant 0 <= i <= |window| == |old(window)|
        invariant forall k | 0 <= k < i ::
                    window[k] == if old(window)[k].client == Some(who) then old(window)[k].(client := None)
                        else old(window)[k]
        invariant forall k | i <= k < |window| :: window[k] == old(window)[k]
      {
        if window[i].client == Some(who) {
          window := window[i := window[i].(client := None)];
        }
        i := i + 1;
      }
      ReleasedShape(old(window), who);
    }

    /** Fills the window from the chain, asks for a chain when there is none, hands the free cells to clients, and drops
        a client that holds everybody up. */
    method AdvanceDownload(peers: Peers)
      requires Valid()
      modifies this
      ensures Valid() && goodClients.Keys <= old(goodClients).Keys && added == old(added)
      ensures old(window) == [] && old(chain) == [] ==> window == [] && chain == []
      ensures !peers.importing ==> Settled(peers)
      ensures requestSent ==> (old(requestSent) && chainClient == old(chainClient)) || AskedAhead(peers)
      decreases goodClients.Keys, 1
    {
      hide BooksOk, HeightsOk, Moved, IsHandedOut;
      if peers.importing {
        return;
      }
      FillWindow();
      MovedNothing(old(window), old(chain), old(chainStart), window, chain);
      AdvanceChain(peers);
      if |downloaded| > TOTAL_DOWNLOAD_BLOCKS {
        downloaded := downloaded[|downloaded| - TOTAL_DOWNLOAD_BLOCKS..];
      }
      var i := HandOut(peers);
      if i < |window| && window[i].client.None? && window[i].status.Downloading? && total < TOTAL_DOWNLOAD_BLOCKS {
        CleanFrom(i);
        AdvanceChain(peers);
        return;
      }
      assert AllAssigned(window, |window|) || total == TOTAL_DOWNLOAD_BLOCKS;
      if window != [] && window[0].status.Downloading? && window[0].client.Some? && !window[0].protected {
        var relativelySlow := total < TOTAL_DOWNLOAD_BLOCKS && |window| >= TOTAL_DOWNLOAD_WINDOW && |goodClients| > 1;
        var timeout := *;
        if relativelySlow || timeout {
          var who := window[0].client.value;
          ClientsAreGood(goodClients, total, window);
          Protect(who);
          OnDisconnect(peers, who);
        }
      }
    }

    /** Assigns the free cells in order. Stops at the first that nobody can deliver, or when enough is under way. */
    method HandOut(peers: Peers) returns (i: nat)
      requires Valid()
      modifies this`window, this`goodClients, this`total
      ensures Valid() && goodClients.Keys == old(goodClients).Keys && i <= |window| == |old(window)|
      ensures i < |window| ==> total >= TOTAL_DOWNLOAD_BLOCKS
                               || (window[i].client.None? && window[i].status.Downloading? && chainClient.None?
                                   && Able(goodClients, peers, window[i].height) == {})
      ensures AllAssigned(window, i) && IsHandedOut(old(window), window, goodClients.Keys)
    {
      hide BooksOk, HeightsOk;
      i := 0;
      while i < |window|
        invariant Valid() && goodClients.Keys == old(goodClients).Keys && 0 <= i <= |window|
        invariant AllAssigned(window, i) && IsHandedOut(old(window), window, goodClients.Keys)
      {
        if window[i].status.Downloading? && window[i].client.None? {
          if total >= TOTAL_DOWNLOAD_BLOCKS {
            return;
          }
          var ready := PickClient(goodClients, downloaded, peers, window[i].height);
          if ready.None? {
            ready := chainClient;
          }
          if ready.None? {
            return;
          }
          StartDownload(i, ready.value);
        }
        i := i + 1;
      }
    }

    method Protect(who: Client)
      requires Valid()
      modifies this`window
      ensures Valid() && |window| == |old(window)|
      ensures forall k | 0 <= k < |window| ::
              window[k] == old(window)[k].(protected := old(window)[k].protected || old(window)[k].client == Some(who))
    {
      hide BooksOk, HeightsOk;
      for i := 0 to |window|
        invariant Valid() && |window| == |old(window)|
        invariant forall k | 0 <= k < i ::
                  window[k] == old(window)[k].(protected := old(window)[k].protected
                  || old(window)[k].client == Some(who))
        invariant forall k | i <= k < |window| :: window[k] == old(window)[k]
      {
        if window[i].client == Some(who) {
          IdleCellKeepsBooks(goodClients, total, window, i, window[i].(protected := true));
          SameHeights(window, i, window[i].(protected := true), chain, chainStart);
          window := window[i := window[i].(protected := true)];
        }
      }
    }

    method OnConnect(peers: Peers, who: Client)
      requires Valid()
      modifies this
      ensures Valid() && goodClients.Keys <= old(goodClients).Keys + {who} && added == old(added)
      ensures !peers.importing ==> Settled(peers)
    {
      if who !in goodClients {
        NobodysCells(window, who);
        goodClients := goodClients[who := 0];
      }
      AdvanceDownload(peers);
    }

    /** The answer to a request for a chain. An answer that was not asked for, or asked from somebody else, is
        dropped. */
    method OnChain(peers: Peers, who: Client, start: Height, bids: seq<Hash>, known: set<Hash>)
      requires Valid() && start < UINT32_RANGE
      modifies this
      ensures Valid() && added == old(added)
      ensures old(chainClient) != Some(who) || !old(requestSent) ==>
                window == old(window) && chain == old(chain) && goodClients == old(goodClients) && total == old(total)
      ensures old(chainClient) == Some(who) && old(requestSent) && !peers.importing ==> Settled(peers)
    {
      if chainClient != Some(who) || !requestSent {
        return;
      }
      requestSent := false;
      chainStart, chain := start, bids;
      var downloading := Bids(window);
      while chain != [] && (chain[0] in known || chain[0] in downloading)
        invariant Valid() && window == [] && added == old(added)
        decreases |chain|
      {
        chain := chain[1..];
        chainStart := (chainStart + 1) % UINT32_RANGE;
      }
      if bids == [] {
        OnDisconnect(peers, who);
      }
      AdvanceDownload(peers);
    }

    /** A peer delivers blocks, and tells which it does not have. A block that cannot be parsed has no hash. */
    method OnObjects(peers: Peers, who: Client, blocks: seq<Option<Hash>>, missed: seq<Hash>)
      requires Valid()
      modifies this
      ensures Valid() && added == old(added) && (!peers.importing ==> Settled(peers))
    {
      hide BooksOk, HeightsOk;
      var k := 0;
      while k < |blocks|
        invariant Valid() && added == old(added)
      {
        if blocks[k].None? {
          OnDisconnect(peers, who);
          break;
        }
        TakeBlock(who, blocks[k].value);
        k := k + 1;
      }
      k := 0;
      while k < |missed|
        invariant Valid() && added == old(added)
      {
        var cleaned := Reassign(who, missed[k]);
        if cleaned {
          break;
        }
        k := k + 1;
      }
      AdvanceDownload(peers);
    }

    /** The first cell that waits for this block from this client gets it. */
    method TakeBlock(who: Client, bid: Hash)
      requires Valid()
      modifies this`window, this`goodClients, this`total, this`downloaded
      ensures Valid() && |window| == |old(window)|
      ensures (forall k | 0 <= k < |window| :: !WaitsFor(old(window)[k], who, bid)) ==>
              window == old(window) && total == old(total)
      ensures forall k | 0 <= k < |window| && WaitsFor(old(window)[k], who, bid) ::
                (forall j | 0 <= j < k :: !WaitsFor(old(window)[j], who, bid)) ==>
                total == old(total) - 1 && window
                    == old(window)[k := old(window)[k].(client := None, status := Preparing)]
    {
      hide BooksOk, HeightsOk;
      var i := 0;
      while i < |window|
        invariant Valid() && 0 <= i <= |window| && window == old(window) && total == old(total)
        invariant forall k | 0 <= k < i :: !WaitsFor(window[k], who, bid)
      {
        if WaitsFor(window[i], who, bid) {
          StopDownload(i, true, chain);
          assert window[i].status.Downloaded?;
          IdleCellKeepsBooks(goodClients, total, window, i, window[i].(status := Preparing));
          SameHeights(window, i, window[i].(status := Preparing), chain, chainStart);
          window := window[i := window[i].(status := Preparing)];
          return;
        }
        i := i + 1;
      }
    }

    /** A block that a client does not have is asked for from the client that gave us the chain. If that is the same
        client, or it has gone, the rest of the window and the chain are given up. */
    method Reassign(who: Client, bid: Hash) returns (cleaned: bool)
      requires Valid()
      modifies this`window, this`goodClients, this`total, this`downloaded, this`chain
      ensures Valid() && (cleaned ==>
              (chainClient.None? || chainClient == Some(who)) && chain == [] && |window| < |old(window)|)
      ensures cleaned ==> WaitsFor(old(window)[|window|], who, bid) && window == old(window)[..|window|]
      ensures !cleaned ==> |window| == |old(window)| && total == old(total) && forall k | 0 <= k < |window| ::
                window[k] == if WaitsFor(old(window)[k], who, bid) then old(window)[k].(client := chainClient)
                    else old(window)[k]
    {
      hide BooksOk, HeightsOk;
      var i := 0;
      while i < |window|
        invariant Valid() && 0 <= i <= |window| == |old(window)| && total == old(total) && chain == old(chain)
        invariant forall k | 0 <= k < i ::
                  window[k] == if WaitsFor(old(window)[k], who, bid) then old(window)[k].(client := chainClient)
                  else old(window)[k]
        invariant forall k | i <= k < |window| :: window[k] == old(window)[k]
        invariant chainClient.None? || chainClient == Some(who) ==>
                  window == old(window) && forall k | 0 <= k < i :: !WaitsFor(window[k], who, bid)
      {
        if WaitsFor(window[i], who, bid) {
          StopDownload(i, false, chain);
          if chainClient.None? || chainClient == Some(who) {
            CleanFrom(i);
            return true;
          }
          StartDownload(i, chainClient.value);
        }
        i := i + 1;
      }
      return false;
    }

    /** Hands the prepared blocks at the front of the window to the block chain, in the order of the window. */
    method OnIdle(peers: Peers, prepared: set<Hash>) returns (more: bool, ghost n: nat)
      requires Valid()
      modifies this
      ensures Valid() && n <= |old(window)|
      ensures Handed(added, old(added), old(window), n) && InSequence(added[|old(added)|..])
      ensures n > 0 && !peers.importing ==> Settled(peers)
    {
      hide BooksOk, HeightsOk;
      var todo := prepared;
      while todo != {}
        invariant Valid() && added == old(added) && SameBlocks(window, old(window), 0)
      {
        var bid :| bid in todo;
        todo := todo - {bid};
        MarkPrepared(bid);
      }
      var addedCounter := 0;
      while window != [] && window[0].status.Prepared?
        invariant Valid() && addedCounter <= |old(window)| && SameBlocks(window, old(window), addedCounter)
        invariant Handed(added, old(added), old(window), addedCounter)
        decreases |window|
      {
        PreparedHasNoClient(goodClients, total, window);
        DropFirstKeepsBooks(goodClients, total, window);
        DropFirstKeepsHeights(window, chain, chainStart);
        HandOne(added, old(added), old(window), addedCounter, window);
        var cell := window[0];
        window := window[1..];
        added := added + [cell];
        addedCounter := addedCounter + 1;
        var late := *;
        if late {
          break;
        }
      }
      n := addedCounter;
      HandedInOrder(added, old(added), old(window), n, old(chain), old(chainStart));
      if addedCounter > 0 {
        AdvanceDownload(peers);
      }
      more := window != [] && window[0].status.Prepared?;
    }

    method MarkPrepared(bid: Hash)
      requires Valid()
      modifies this`window
      ensures Valid() && |window| == |old(window)|
      ensures forall k | 0 <= k < |window| ::
              window[k].bid == old(window)[k].bid && window[k].height == old(window)[k].height
    {
      hide BooksOk, HeightsOk;
      var i := 0;
      while i < |window|
        invariant window == old(window) && 0 <= i <= |window|
      {
        if window[i].status.Preparing? && window[i].bid == bid {
          PreparedHasNoClient(goodClients, total, window);
          IdleCellKeepsBooks(goodClients, total, window, i, window[i].(status := Prepared));
          SameHeights(window, i, window[i].(status := Prepared), chain, chainStart);
          window := window[i := window[i].(status := Prepared)];
          return;
        }
        i := i + 1;
      }
    }

    /** The client we asked for a chain is too slow. */
    method OnChainTimer(peers: Peers)
      requires Valid()
      modifies this
      ensures Valid() && added == old(added)
    {
      if chainClient.Some? {
        OnDisconnect(peers, chainClient.value);
      }
    }

    /** A protected client has held up the first block for too long. */
    method OnDownloadTimer(peers: Peers, late: bool)
      requires Valid()
      modifies this
      ensures Valid() && added == old(added)
    {
      if window != [] && window[0].status.Downloading? && window[0].client.Some? && window[0].protected && late {
        OnDisconnect(peers, window[0].client.value);
      }
    }
  }

  /** These cells are for the blocks of was from position n on. */
  ghost predicate SameBlocks(window: seq<Cell>, was: seq<Cell>, n: nat) {
    |was| == |window| + n && forall k | 0 <= k < |window| ::
        window[k].bid == was[n + k].bid && window[k].height == was[n + k].height
  }

  /** The first n cells of was have been handed over, prepared. */
  ghost predicate Handed(added: seq<Cell>, before: seq<Cell>, was: seq<Cell>, n: nat)
    requires n <= |was|
  {
    && |added| == |before| + n && added[..|before|] == before
    && forall k | 0 <= k < n :: added[|before| + k].bid == was[k].bid && added[|before| + k].height == was[k].height
         && added[|before| + k].status.Prepared?
  }

  ghost predicate InSequence(cells: seq<Cell>) {
    forall i | 0 < i < |cells| :: cells[i].height == (cells[i - 1].height + 1) % UINT32_RANGE
  }

  lemma {:induction false} HandOne(added: seq<Cell>, before: seq<Cell>, was: seq<Cell>, n: nat, window: seq<Cell>)
    requires n <= |was| && Handed(added, before, was, n) && SameBlocks(window, was, n)
    requires window != [] && window[0].status.Prepared?
    ensures n < |was| && Handed(added + [window[0]], before, was, n + 1) && SameBlocks(window[1..], was, n + 1)
  {
    var more := added + [window[0]];
    assert more[..|before|] == added[..|before|];
    assert window[0].bid == was[n + 0].bid && window[0].height == was[n + 0].height;
    forall k | 0 <= k < n + 1
      ensures more[|before| + k].bid == was[k].bid && more[|before| + k].height == was[k].height
      ensures more[|before| + k].status.Prepared?
    {
      assert k < n ==> more[|before| + k] == added[|before| + k];
    }
    forall k | 0 <= k < |window[1..]|
      ensures window[1..][k].bid == was[n + 1 + k].bid && window[1..][k].height == was[n + 1 + k].height
    {
      assert window[1..][k] == window[k + 1];
    }
  }

  lemma {:induction false} HandedInOrder(added: seq<Cell>, before: seq<Cell>, was: seq<Cell>, n: nat, chain: seq<Hash>,
                                         chainStart: Height)
    requires n <= |was| && Handed(added, before, was, n) && HeightsOk(was, chain, chainStart)
    ensures InSequence(added[|before|..])
  {
    var cells := added[|before|..];
    forall k | 0 <= k < |cells|
      ensures cells[k].height == was[k].height
    {
      assert cells[k] == added[|before| + k];
    }
  }

  function Bids(window: seq<Cell>): set<Hash> {
    set c | c in window :: c.bid
  }

  lemma {:induction false} PreparedHasNoClient(good: map<Client, nat>, total: int, window: seq<Cell>)
    requires BooksOk(good, total, window)
    ensures forall i | 0 <= i < |window| && !window[i].status.Downloading? :: window[i].client.None?
  {
  }

  lemma {:induction false} DropFirstKeepsHeights(window: seq<Cell>, chain: seq<Hash>, chainStart: Height)
    requires HeightsOk(window, chain, chainStart) && window != []
    ensures HeightsOk(window[1..], chain, chainStart)
  {
  }

  predicate WaitsFor(c: Cell, who: Client, bid: Hash) {
    c.status.Downloading? && c.client == Some(who) && c.bid == bid
  }

  ghost predicate AllAssigned(window: seq<Cell>, n: nat) {
    forall k | 0 <= k < n && k < |window| && window[k].status.Downloading? :: window[k].client.Some?
  }

  /** Only free cells have changed, and only by being assigned to a known client. */
  ghost predicate IsHandedOut(was: seq<Cell>, now: seq<Cell>, good: set<Client>) {
    && |now| == |was|
    && forall k | 0 <= k < |now| :: now[k] == was[k]
         || (was[k].client.None? && was[k].status.Downloading? && now[k].client.Some? && now[k].client.value in good
             && now[k] == was[k].(client := now[k].client))
  }

  lemma {:induction false} AppendKeepsHeights(window: seq<Cell>, chain: seq<Hash>, start: Height, c: Cell)
    requires HeightsOk(window, chain, start) && chain != [] && c.height == start
    ensures HeightsOk(window + [c], chain[1..], (start + 1) % UINT32_RANGE)
  {
  }

  lemma {:induction false} NextStart(start: Height, n: nat)
    ensures ((start + n) % UINT32_RANGE + 1) % UINT32_RANGE == (start + (n + 1)) % UINT32_RANGE
  {
  }

  /** The front of the chain has become the end of the window. */
  ghost predicate Moved(window: seq<Cell>, chain: seq<Hash>, start: Height, window': seq<Cell>, chain': seq<Hash>) {
    var n := |window'| - |window|;
    && 0 <= n <= |chain| && chain' == chain[n..] && window'[..|window|] == window
    && forall k | 0 <= k < n ::
        window'[|window| + k] == Cell(chain[k], (start + k) % UINT32_RANGE, None, Downloading, false)
  }

  lemma {:induction false} NothingMoved(window: seq<Cell>, chain: seq<Hash>, start: Height)
    ensures Moved(window, chain, start, window, chain)
  {
  }

  lemma {:induction false} MovedNothing(window: seq<Cell>, chain: seq<Hash>, start: Height, window': seq<Cell>,
                                        chain': seq<Hash>)
    requires Moved(window, chain, start, window', chain')
    ensures window == [] && chain == [] ==> window' == [] && chain' == []
  {
  }

  lemma {:induction false} OneMoved(window: seq<Cell>, chain: seq<Hash>, start: Height, window': seq<Cell>,
                                    chain': seq<Hash>, next: Height)
    requires Moved(window, chain, start, window', chain') && chain' != []
    requires next == (start + |chain| - |chain'|) % UINT32_RANGE
    ensures Moved(window, chain, start, window' + [Cell(chain'[0], next, None, Downloading, false)], chain'[1..])
  {
  }

  function Others(clients: seq<Client>, who: Client): seq<Client> {
    if clients == [] then []
    else
      var n := |clients| - 1;
      Others(clients[..n], who) + if clients[n] == who then [] else [clients[n]]
  }

  lemma {:induction false} ClientsAreGood(good: map<Client, nat>, total: int, window: seq<Cell>)
    requires BooksOk(good, total, window)
    ensures forall i | 0 <= i < |window| && window[i].client.Some? :: window[i].client.value in good
  {
  }

  lemma {:induction false} ClientsCells(good: map<Client, nat>, total: int, window: seq<Cell>)
    requires BooksOk(good, total, window)
    ensures forall i | 0 <= i < |window| && window[i].client.Some? :: window[i].status.Downloading?
  {
  }
}
