/** Overlays: what a DeltaState has collected on top of another state, how it is read through, and what applying
    it does. Overlays nest to any depth. */
module Overlay {
  import opened ChainTypes
  import opened Ledgers
  import opened Execution

  datatype Delta = Delta(
    keyImages: map<KeyImage, Height>, amounts: map<Amount, seq<Pushed>>, spent: seq<(Amount, nat)>)

  const EMPTY_DELTA := Delta(map[], map[], [])

  function Get(amounts: map<Amount, seq<Pushed>>, a: Amount): seq<Pushed> {
    if a in amounts then amounts[a] else []
  }

  datatype View = Base(ledger: Ledger) | Over(delta: Delta, height: Height, parent: View)

  // ---- reading through ----

  function ReadKeyImage(v: View, ki: KeyImage): Option<Height> {
    match v
    case Base(l) => if ki in l.keyImages then Some(l.keyImages[ki]) else None
    case Over(d, h, p) => if ki in d.keyImages then Some(h) else ReadKeyImage(p, ki)
  }

  function NextIndex(v: View, a: Amount): nat {
    match v
    case Base(l) => |Stack(l, a)|
    case Over(d, _, p) => NextIndex(p, a) + |Get(d.amounts, a)|
  }

  function ReadOutput(v: View, a: Amount, g: nat): Option<Entry> {
    match v
    case Base(l) => if Has(l, a, g) then Some(Stack(l, a)[g]) else None
    case Over(d, h, p) =>
      var first := NextIndex(p, a);
      if g < first then ReadOutput(p, a, g)
      else if g - first < |Get(d.amounts, a)| then
        var e := Get(d.amounts, a)[g - first];
        Some(Entry(e.unlockTime, e.key, h, false))
      else None
  }

  // ---- applying ----

  function PushAll(l: Ledger, amounts: map<Amount, seq<Pushed>>, h: Height): Ledger {
    l.(stacks := map a | a in l.stacks.Keys + amounts.Keys && Stack(l, a) + Entries(Get(amounts, a), h) != [] ::
                   Stack(l, a) + Entries(Get(amounts, a), h))
  }

  function MarkAll(l: Ledger, spent: seq<(Amount, nat)>): Ledger {
    if spent == [] then l
    else
      var n := |spent| - 1;
      Mark(MarkAll(l, spent[..n]), spent[n].0, spent[n].1, true)
  }

  /** Key images first, then all outputs grouped by amount, then the spent flags. */
  function ApplyTo(l: Ledger, d: Delta, h: Height): Ledger {
    MarkAll(PushAll(l.(keyImages := l.keyImages + d.keyImages), d.amounts, h), d.spent)
  }

  /** Applying the overlay c to the overlay p below it. */
  function Merge(p: Delta, c: Delta): Delta {
    Delta(p.keyImages + c.keyImages,
          map a | a in p.amounts.Keys + c.amounts.Keys :: Get(p.amounts, a) + Get(c.amounts, a),
          p.spent + c.spent)
  }

  function Flatten(v: View): Ledger {
    match v
    case Base(l) => l
    case Over(d, h, p) => ApplyTo(Flatten(p), d, h)
  }

  // ---- collecting transactions ----

  function AmountsOf(unlockTime: nat, outputs: seq<Output>): map<Amount, seq<Pushed>> {
    if outputs == [] then map[]
    else
      var n := |outputs| - 1;
      var before := AmountsOf(unlockTime, outputs[..n]);
      before[outputs[n].amount := Get(before, outputs[n].amount) + [Pushed(unlockTime, outputs[n].key)]]
  }

  /** What one transaction leaves in the overlay made for it. */
  function TxDelta(tx: Transaction, h: Height): Delta {
    Delta(KeyImagesOf(tx.inputs, h), AmountsOf(tx.unlockTime, tx.outputs), SpendsOf(tx.inputs))
  }

  function TxsDelta(txs: seq<Transaction>, h: Height): Delta {
    if txs == [] then EMPTY_DELTA
    else
      var n := |txs| - 1;
      Merge(TxsDelta(txs[..n], h), TxDelta(txs[n], h))
  }

  /** The global indices handed out for the outputs of a transaction on top of v. */
  function OutputIndices(v: View, unlockTime: nat, outputs: seq<Output>): (r: seq<nat>)
    ensures |r| == |outputs|
  {
    if outputs == [] then []
    else
      var n := |outputs| - 1;
      var a := outputs[n].amount;
      OutputIndices(v, unlockTime, outputs[..n]) + [NextIndex(v, a) + |OutputsOf(unlockTime, outputs[..n], a)|]
  }

  // ---- what applying does, amount by amount ----

  lemma {:induction false} MarkAllStack(l: Ledger, spent: seq<(Amount, nat)>, a: Amount)
    ensures Stack(MarkAll(l, spent), a) == Flagged(Stack(l, a), a, spent)
    ensures MarkAll(l, spent).keyImages == l.keyImages
    ensures Normal(l) ==> Normal(MarkAll(l, spent))
  {
    if spent != [] {
      MarkAllStack(l, spent[..|spent| - 1], a);
    }
  }

  lemma {:induction false} ApplyStack(l: Ledger, d: Delta, h: Height, a: Amount)
    ensures Stack(ApplyTo(l, d, h), a) == Flagged(Stack(l, a) + Entries(Get(d.amounts, a), h), a, d.spent)
    ensures ApplyTo(l, d, h).keyImages == l.keyImages + d.keyImages
    ensures Normal(l) ==> Normal(ApplyTo(l, d, h))
  {
    var m := PushAll(l.(keyImages := l.keyImages + d.keyImages), d.amounts, h);
    assert Stack(m, a) == Stack(l, a) + Entries(Get(d.amounts, a), h);
    MarkAllStack(m, d.spent, a);
  }

  lemma {:induction false} FlattenNextIndex(v: View, a: Amount)
    ensures NextIndex(v, a) == |Stack(Flatten(v), a)|
  {
    if v.Over? {
      FlattenNextIndex(v.parent, a);
      ApplyStack(Flatten(v.parent), v.delta, v.height, a);
    }
  }

  lemma {:induction false} EntriesAt(ps: seq<Pushed>, h: Height, i: nat)
    requires i < |ps|
    ensures Entries(ps, h)[i] == Entry(ps[i].unlockTime, ps[i].key, h, false)
  {
    if i < |ps| - 1 {
      EntriesAt(ps[..|ps| - 1], h, i);
    }
  }

  /** Every overlay records its key images at its own height. */
  ghost predicate OwnHeights(v: View) {
    v.Over? ==> (forall ki <- v.delta.keyImages :: v.delta.keyImages[ki] == v.height) && OwnHeights(v.parent)
  }

  /** Reading through any stack of overlays gives what is read after applying them all, except that the spent
      flag of an output is the one it had below the overlays. */
  lemma {:induction false} ReadThroughIsReadAfterApply(v: View, ki: KeyImage, a: Amount, g: nat)
    requires OwnHeights(v)
    ensures ReadKeyImage(v, ki) == ReadKeyImage(Base(Flatten(v)), ki)
    ensures NextIndex(v, a) == NextIndex(Base(Flatten(v)), a)
    ensures var r, s := ReadOutput(v, a, g), ReadOutput(Base(Flatten(v)), a, g);
            r.Some? == s.Some? && (r.Some? ==> r.value.(spent := false) == s.value.(spent := false))
  {
    hide Entries, Flagged, PushAll, MarkAll;
    FlattenNextIndex(v, a);
    if v.Over? {
      var l := Flatten(v.parent);
      var pushed := Get(v.delta.amounts, a);
      ReadThroughIsReadAfterApply(v.parent, ki, a, g);
      FlattenNextIndex(v.parent, a);
      ApplyStack(l, v.delta, v.height, a);
      var all := Stack(l, a) + Entries(pushed, v.height);
      if g < |all| {
        FlaggedAt(all, a, v.delta.spent, g);
        if g >= |Stack(l, a)| {
          EntriesAt(pushed, v.height, g - |Stack(l, a)|);
        }
      }
    }
  }

  // ---- an overlay filled with transactions, and its refinement of executing them in place ----

  lemma {:induction false} AmountsOfGet(unlockTime: nat, outputs: seq<Output>, a: Amount)
    ensures Get(AmountsOf(unlockTime, outputs), a) == OutputsOf(unlockTime, outputs, a)
  {
    if outputs != [] {
      AmountsOfGet(unlockTime, outputs[..|outputs| - 1], a);
    }
  }

  lemma {:induction false} TxsDeltaContent(txs: seq<Transaction>, h: Height, a: Amount)
    ensures var d := TxsDelta(txs, h);
            && d.keyImages == KeyImagesOf(AllInputs(txs), h)
            && Get(d.amounts, a) == AllOutputsOf(txs, a)
            && d.spent == SpendsOf(AllInputs(txs))
  {
    if txs != [] {
      var n := |txs| - 1;
      TxsDeltaContent(txs[..n], h, a);
      KeyImagesAppend(AllInputs(txs[..n]), txs[n].inputs, h);
      SpendsAppend(AllInputs(txs[..n]), txs[n].inputs);
      AmountsOfGet(txs[n].unlockTime, txs[n].outputs, a);
    }
  }

  /** Executing any list of transactions through an overlay and applying it leaves the key images and, spent flags
      aside, the output stacks that executing them one by one in place leaves. */
  lemma {:induction false} OverlayRefinesExecution(l: Ledger, txs: seq<Transaction>, h: Height, a: Amount)
    ensures ApplyTo(l, TxsDelta(txs, h), h).keyImages == ExecTxs(l, txs, h).keyImages
    ensures Unflagged(Stack(ApplyTo(l, TxsDelta(txs, h), h), a)) == Unflagged(Stack(ExecTxs(l, txs, h), a))
  {
    var d := TxsDelta(txs, h);
    TxsDeltaContent(txs, h, a);
    ApplyStack(l, d, h, a);
    UnflaggedFlagged(Stack(l, a) + Entries(Get(d.amounts, a), h), a, d.spent);
    UnflaggedEntries(Stack(l, a), Get(d.amounts, a), h);
    TxsKeyImages(l, txs, h);
    TxsStackButSpent(l, txs, h, a);
  }

  // ---- when the spent flags agree as well ----

  /** Transaction k names output g of amount a, and executing in place has already created that output. */
  ghost predicate NamedBy(l: Ledger, txs: seq<Transaction>, k: nat, a: Amount, g: nat) {
    k < |txs| && (a, g) in SpendsOf(txs[k].inputs) && g < |Stack(l, a)| + |AllOutputsOf(txs[..k], a)|
  }

  ghost predicate NamedInTime(l: Ledger, txs: seq<Transaction>, a: Amount, g: nat) {
    exists k: nat :: NamedBy(l, txs, k, a, g)
  }

  /** Every output that is named by a one-member ring, and is there in the end, is named in time. */
  ghost predicate AllInTime(l: Ledger, txs: seq<Transaction>) {
    forall p <- SpendsOf(AllInputs(txs)) :: p.1 < |Stack(l, p.0)| + |AllOutputsOf(txs, p.0)| ==>
        NamedInTime(l, txs, p.0, p.1)
  }

  lemma {:induction false} InTimeNext(l: Ledger, txs: seq<Transaction>, a: Amount, g: nat)
    requires txs != []
    ensures var n := |txs| - 1;
            NamedInTime(l, txs, a, g) <==>
              || NamedInTime(l, txs[..n], a, g)
              || ((a, g) in SpendsOf(txs[n].inputs) && g < |Stack(l, a)| + |AllOutputsOf(txs[..n], a)|)
  {
    var n := |txs| - 1;
    forall k: nat | k < n
      ensures NamedBy(l, txs[..n], k, a, g) == NamedBy(l, txs, k, a, g)
    {
      assert txs[..n][k] == txs[k] && txs[..n][..k] == txs[..k];
    }
    assert NamedBy(l, txs, n, a, g) <==>
        (a, g) in SpendsOf(txs[n].inputs) && g < |Stack(l, a)| + |AllOutputsOf(txs[..n], a)|;
    assert forall k: nat | NamedBy(l, txs[..n], k, a, g) :: k < n;
    assert forall k: nat | NamedBy(l, txs, k, a, g) :: k <= n;
    hide NamedBy;
    if NamedInTime(l, txs[..n], a, g) {
      var k: nat :| NamedBy(l, txs[..n], k, a, g);
      assert NamedBy(l, txs, k, a, g);
    }
  }

  lemma {:induction false} InTimeExists(l: Ledger, txs: seq<Transaction>, a: Amount, g: nat)
    requires NamedInTime(l, txs, a, g)
    ensures g < |Stack(l, a)| + |AllOutputsOf(txs, a)|
  {
    if txs != [] {
      InTimeNext(l, txs, a, g);
      if NamedInTime(l, txs[..|txs| - 1], a, g) {
        InTimeExists(l, txs[..|txs| - 1], a, g);
      }
    }
  }

  lemma {:induction false} SpendOrigin(txs: seq<Transaction>, p: (Amount, nat)) returns (k: nat)
    requires p in SpendsOf(AllInputs(txs))
    ensures k < |txs| && p in SpendsOf(txs[k].inputs)
  {
    var n := |txs| - 1;
    SpendsAppend(AllInputs(txs[..n]), txs[n].inputs);
    if p in SpendsOf(AllInputs(txs[..n])) {
      k := SpendOrigin(txs[..n], p);
    } else {
      k := n;
    }
  }

  lemma {:induction false} ExecutedSize(l: Ledger, txs: seq<Transaction>, h: Height, a: Amount)
    ensures |Stack(ExecTxs(l, txs, h), a)| == |Stack(l, a)| + |AllOutputsOf(txs, a)|
  {
    TxsStackButSpent(l, txs, h, a);
  }

  /** Executing in place flags exactly what was flagged before and what is named in time. */
  lemma {:induction false} ExecutedFlag(l: Ledger, txs: seq<Transaction>, h: Height, a: Amount, g: nat)
    requires Has(ExecTxs(l, txs, h), a, g)
    ensures Stack(ExecTxs(l, txs, h), a)[g].spent <==>
            (Has(l, a, g) && Stack(l, a)[g].spent) || NamedInTime(l, txs, a, g)
  {
    if txs != [] {
      var n := |txs| - 1;
      var tx, m := txs[n], ExecTxs(l, txs[..n], h);
      ExecutedSize(l, txs[..n], h, a);
      InTimeNext(l, txs, a, g);
      TxStack(m, tx, h, a);
      hide NamedInTime, ExecTx, AllOutputsOf, SpendsOf;
      if Has(m, a, g) {
        ExecutedFlag(l, txs[..n], h, a, g);
        FlaggedAt(Stack(m, a), a, SpendsOf(tx.inputs), g);
      } else {
        EntriesAt(OutputsOf(tx.unlockTime, tx.outputs, a), h, g - |Stack(m, a)|);
        if NamedInTime(l, txs[..n], a, g) {
          InTimeExists(l, txs[..n], a, g);
        }
      }
    }
  }

  /** Applying the overlay flags exactly what was flagged before and what is named at all. */
  lemma {:induction false} AppliedFlag(l: Ledger, txs: seq<Transaction>, h: Height, a: Amount, g: nat)
    requires Has(ApplyTo(l, TxsDelta(txs, h), h), a, g)
    ensures Stack(ApplyTo(l, TxsDelta(txs, h), h), a)[g].spent <==>
            (Has(l, a, g) && Stack(l, a)[g].spent) || (a, g) in SpendsOf(AllInputs(txs))
  {
    hide ApplyTo, TxsDelta, Flagged, Entries, SpendsOf, Get, AllOutputsOf;
    TxsDeltaContent(txs, h, a);
    var d := TxsDelta(txs, h);
    ApplyStack(l, d, h, a);
    FlaggedAt(Stack(l, a) + Entries(Get(d.amounts, a), h), a, d.spent, g);
    if !Has(l, a, g) {
      EntriesAt(Get(d.amounts, a), h, g - |Stack(l, a)|);
    }
  }

  lemma {:induction false} SameEntry(s: seq<Entry>, t: seq<Entry>, g: nat)
    requires Unflagged(s) == Unflagged(t) && g < |s|
    ensures g < |t| && (s[g] == t[g] <==> s[g].spent == t[g].spent)
  {
    UnflaggedAt(s, g);
    assert |t| == |Unflagged(t)|;
    UnflaggedAt(t, g);
  }

  lemma {:induction false} InTimeIsNamed(l: Ledger, txs: seq<Transaction>, a: Amount, g: nat)
    requires NamedInTime(l, txs, a, g)
    ensures (a, g) in SpendsOf(AllInputs(txs))
    decreases |txs|
  {
    var n := |txs| - 1;
    SpendsAppend(AllInputs(txs[..n]), txs[n].inputs);
    InTimeNext(l, txs, a, g);
    if NamedInTime(l, txs[..n], a, g) {
      InTimeIsNamed(l, txs[..n], a, g);
    }
  }

  /** Whatever was there before is named in time as soon as it is named. */
  lemma {:induction false} OldIsInTime(l: Ledger, txs: seq<Transaction>, a: Amount, g: nat)
    requires Has(l, a, g) && (a, g) in SpendsOf(AllInputs(txs))
    ensures NamedInTime(l, txs, a, g)
  {
    var k := SpendOrigin(txs, (a, g));
    assert NamedBy(l, txs, k, a, g);
  }

  lemma {:induction false} SameStacks(l: Ledger, txs: seq<Transaction>, h: Height, a: Amount)
    requires AllInTime(l, txs)
    ensures Stack(ApplyTo(l, TxsDelta(txs, h), h), a) == Stack(ExecTxs(l, txs, h), a)
  {
    var s, t := Stack(ApplyTo(l, TxsDelta(txs, h), h), a), Stack(ExecTxs(l, txs, h), a);
    OverlayRefinesExecution(l, txs, h, a);
    ExecutedSize(l, txs, h, a);
    assert |s| == |Unflagged(s)| == |t|;
    hide ApplyTo, ExecTxs, TxsDelta, NamedInTime;
    forall g: nat | g < |s|
      ensures s[g] == t[g]
    {
      SameEntry(s, t, g);
      AppliedFlag(l, txs, h, a, g);
      ExecutedFlag(l, txs, h, a, g);
      if NamedInTime(l, txs, a, g) {
        InTimeIsNamed(l, txs, a, g);
      }
    }
  }

  /** An overlay that is applied and execution in place give the same ledger exactly when every output that is named by
      a one-member ring is named by some transaction that finds it there. */
  lemma {:induction false} OverlayIsExecutionExactly(l: Ledger, txs: seq<Transaction>, h: Height)
    requires Normal(l)
    ensures ApplyTo(l, TxsDelta(txs, h), h) == ExecTxs(l, txs, h) <==> AllInTime(l, txs)
  {
    hide NamedInTime;
    if AllInTime(l, txs) {
      forall a
        ensures Stack(ApplyTo(l, TxsDelta(txs, h), h), a) == Stack(ExecTxs(l, txs, h), a)
      {
        SameStacks(l, txs, h, a);
      }
      OverlayRefinesExecution(l, txs, h, 0);
      ApplyStack(l, TxsDelta(txs, h), h, 0);
      SameReads(ApplyTo(l, TxsDelta(txs, h), h), ExecTxs(l, txs, h));
    } else {
      var p :| p in SpendsOf(AllInputs(txs)) && p.1 < |Stack(l, p.0)| + |AllOutputsOf(txs, p.0)|
          && !NamedInTime(l, txs, p.0, p.1);
      ExecutedSize(l, txs, h, p.0);
      ExecutedFlag(l, txs, h, p.0, p.1);
      if Has(l, p.0, p.1) {
        OldIsInTime(l, txs, p.0, p.1);
      }
      if ApplyTo(l, TxsDelta(txs, h), h) == ExecTxs(l, txs, h) {
        AppliedFlag(l, txs, h, p.0, p.1);
      }
    }
  }

  /** In particular when the outputs that one-member rings name were there before, as they are in every block that
      passes the ring checks. */
  lemma {:induction false} OverlayIsExecution(l: Ledger, txs: seq<Transaction>, h: Height)
    requires Normal(l) && InRange(l, SpendsOf(AllInputs(txs)))
    ensures ApplyTo(l, TxsDelta(txs, h), h) == ExecTxs(l, txs, h)
  {
    forall p | p in SpendsOf(AllInputs(txs))
      ensures NamedInTime(l, txs, p.0, p.1)
    {
      OldIsInTime(l, txs, p.0, p.1);
    }
    OverlayIsExecutionExactly(l, txs, h);
  }

  /** A list for which they differ, which the ring checks would refuse: a one-member ring that names an output its own
      transaction is about to create is flagged by the overlay, which flags last, and not by executing in place. */
  lemma {:induction false} OverlayFlagsOwnOutput(a: Amount, ki: KeyImage, key: PublicKey, h: Height)
    ensures var txs := [Transaction(1, 0, [KeyInput(a, [0], ki)], [Output(a, key)], [[]])];
            && Stack(ApplyTo(EMPTY, TxsDelta(txs, h), h), a) == [Entry(0, key, h, true)]
            && Stack(ExecTxs(EMPTY, txs, h), a) == [Entry(0, key, h, false)]
  {
    var tx := Transaction(1, 0, [KeyInput(a, [0], ki)], [Output(a, key)], [[]]);
    var pushed := [Pushed(0, key)];
    var spends := [(a, 0)];
    assert AllInputs([tx]) == tx.inputs;
    assert tx.inputs[..0] == [];
    assert SpendsOf(tx.inputs) == spends;
    assert tx.outputs[..0] == [];
    assert OutputsOf(0, tx.outputs, a) == pushed;
    assert AllOutputsOf([tx], a) == pushed;
    assert pushed[..0] == [] && spends[..0] == [];
    assert Entries(pushed, h) == [Entry(0, key, h, false)];
    TxsDeltaContent([tx], h, a);
    ApplyStack(EMPTY, TxsDelta([tx], h), h, a);
    TxStack(EMPTY, tx, h, a);
    assert ExecTxs(EMPTY, [tx], h) == ExecTx(ExecTxs(EMPTY, [], h), tx, h);
  }

  /** The index an overlay hands out for output j is the place executing in place gives it: the outputs of that
      amount that are below, in earlier transactions, or earlier in the same transaction. */
  lemma {:induction false} IndicesAreStackPositions(l: Ledger, txs: seq<Transaction>, tx: Transaction, h: Height,
                                                    j: nat)
    requires j < |tx.outputs|
    ensures var before := ExecOutputs(ExecInputs(ExecTxs(l, txs, h), tx.inputs, h), tx.unlockTime, tx.outputs[..j], h);
            OutputIndices(Over(TxsDelta(txs, h), h, Base(l)), tx.unlockTime, tx.outputs)[j]
            == |Stack(before, tx.outputs[j].amount)|
  {
    var v, a := Over(TxsDelta(txs, h), h, Base(l)), tx.outputs[j].amount;
    IndexAt(v, tx.unlockTime, tx.outputs, j);
    TxsDeltaContent(txs, h, a);
    TxsStackButSpent(l, txs, h, a);
    var m := ExecTxs(l, txs, h);
    InputsStack(m, tx.inputs, h, a);
    OutputsStack(ExecInputs(m, tx.inputs, h), tx.unlockTime, tx.outputs[..j], h, a);
  }

  lemma {:induction false} IndexAt(v: View, unlockTime: nat, outputs: seq<Output>, j: nat)
    requires j < |outputs|
    ensures OutputIndices(v, unlockTime, outputs)[j] ==
            NextIndex(v, outputs[j].amount) + |OutputsOf(unlockTime, outputs[..j], outputs[j].amount)|
  {
    if j < |outputs| - 1 {
      IndexAt(v, unlockTime, outputs[..|outputs| - 1], j);
      assert outputs[..|outputs| - 1][..j] == outputs[..j];
    }
  }
}
