/** The meaning of a list of transactions, executed one after the other on the ledger itself. This is the
    reference that the overlays of BlockChainState are compared with, and that undoing takes back. */
module Execution {
  import opened ChainTypes
  import opened Ledgers

  // ---- forwards ----

  /** A ring with one member says which output is spent, and only then is the output flagged. */
  predicate NamesOutput(i: Input) {
    i.KeyInput? && |i.outputIndexes| == 1
  }

  function ExecInput(l: Ledger, i: Input, h: Height): (r: Ledger)
    ensures Normal(l) ==> Normal(r)
  {
    if !i.KeyInput? then l
    else WithKeyImage(if NamesOutput(i) then Mark(l, i.amount, i.outputIndexes[0], true) else l, i.keyImage, h)
  }

  function ExecInputs(l: Ledger, inputs: seq<Input>, h: Height): (r: Ledger)
    ensures Normal(l) ==> Normal(r)
  {
    if inputs == [] then l
    else
      var n := |inputs| - 1;
      ExecInput(ExecInputs(l, inputs[..n], h), inputs[n], h)
  }

  function ExecOutputs(l: Ledger, unlockTime: nat, outputs: seq<Output>, h: Height): (r: Ledger)
    ensures Normal(l) ==> Normal(r)
  {
    if outputs == [] then l
    else
      var n := |outputs| - 1;
      Push(ExecOutputs(l, unlockTime, outputs[..n], h), outputs[n].amount, Entry(unlockTime, outputs[n].key, h, false))
  }

  function ExecTx(l: Ledger, tx: Transaction, h: Height): (r: Ledger)
    ensures Normal(l) ==> Normal(r)
  {
    ExecOutputs(ExecInputs(l, tx.inputs, h), tx.unlockTime, tx.outputs, h)
  }

  function ExecTxs(l: Ledger, txs: seq<Transaction>, h: Height): (r: Ledger)
    ensures Normal(l) ==> Normal(r)
  {
    if txs == [] then l
    else
      var n := |txs| - 1;
      ExecTx(ExecTxs(l, txs[..n], h), txs[n], h)
  }

  // ---- backwards; None is an invariant of the source firing ----

  function PopExpecting(l: Ledger, a: Amount, unlockTime: nat, key: PublicKey): Option<Ledger> {
    var s := Stack(l, a);
    if s == [] then None
    else
      var top := s[|s| - 1];
      if top.spent || top.unlockTime != unlockTime || top.key != key then None else Some(Pop(l, a))
  }

  function UndoOutputs(l: Ledger, unlockTime: nat, outputs: seq<Output>): Option<Ledger>
    decreases |outputs|
  {
    if outputs == [] then Some(l)
    else
      var n := |outputs| - 1;
      match PopExpecting(l, outputs[n].amount, unlockTime, outputs[n].key)
      case None => None
      case Some(m) => UndoOutputs(m, unlockTime, outputs[..n])
  }

  function UndoInput(l: Ledger, i: Input): Option<Ledger> {
    if !i.KeyInput? then Some(l)
    else if i.keyImage !in l.keyImages then None
    else
      var m := WithoutKeyImage(l, i.keyImage);
      Some(if NamesOutput(i) then Mark(m, i.amount, i.outputIndexes[0], false) else m)
  }

  function UndoInputs(l: Ledger, inputs: seq<Input>): Option<Ledger>
    decreases |inputs|
  {
    if inputs == [] then Some(l)
    else
      var n := |inputs| - 1;
      match UndoInput(l, inputs[n])
      case None => None
      case Some(m) => UndoInputs(m, inputs[..n])
  }

  function UndoTx(l: Ledger, tx: Transaction): Option<Ledger> {
    match UndoOutputs(l, tx.unlockTime, tx.outputs)
    case None => None
    case Some(m) => UndoInputs(m, tx.inputs)
  }

  function UndoTxs(l: Ledger, txs: seq<Transaction>): Option<Ledger>
    decreases |txs|
  {
    if txs == [] then Some(l)
    else
      var n := |txs| - 1;
      match UndoTx(l, txs[n])
      case None => None
      case Some(m) => UndoTxs(m, txs[..n])
  }

  // ---- what a list of inputs and outputs contributes ----

  function AllInputs(txs: seq<Transaction>): seq<Input> {
    if txs == [] then [] else AllInputs(txs[..|txs| - 1]) + txs[|txs| - 1].inputs
  }

  function KeyImagesOf(inputs: seq<Input>, h: Height): map<KeyImage, Height> {
    if inputs == [] then map[]
    else
      var n := |inputs| - 1;
      var before := KeyImagesOf(inputs[..n], h);
      if inputs[n].KeyInput? then before[inputs[n].keyImage := h] else before
  }

  function SpendsOf(inputs: seq<Input>): seq<(Amount, nat)> {
    if inputs == [] then []
    else
      var n := |inputs| - 1;
      var before := SpendsOf(inputs[..n]);
      if NamesOutput(inputs[n]) then before + [(inputs[n].amount, inputs[n].outputIndexes[0])] else before
  }

  datatype Pushed = Pushed(unlockTime: nat, key: PublicKey)

  function OutputsOf(unlockTime: nat, outputs: seq<Output>, a: Amount): seq<Pushed> {
    if outputs == [] then []
    else
      var n := |outputs| - 1;
      var before := OutputsOf(unlockTime, outputs[..n], a);
      if outputs[n].amount == a then before + [Pushed(unlockTime, outputs[n].key)] else before
  }

  function AllOutputsOf(txs: seq<Transaction>, a: Amount): seq<Pushed> {
    if txs == [] then []
    else
      var n := |txs| - 1;
      AllOutputsOf(txs[..n], a) + OutputsOf(txs[n].unlockTime, txs[n].outputs, a)
  }

  function Entries(ps: seq<Pushed>, h: Height): (r: seq<Entry>)
    ensures |r| == |ps|
  {
    if ps == [] then []
    else
      var n := |ps| - 1;
      Entries(ps[..n], h) + [Entry(ps[n].unlockTime, ps[n].key, h, false)]
  }

  function FlagOne(s: seq<Entry>, a: Amount, p: (Amount, nat)): (r: seq<Entry>)
    ensures |r| == |s|
  {
    if p.0 == a && p.1 < |s| then s[p.1 := s[p.1].(spent := true)] else s
  }

  function Flagged(s: seq<Entry>, a: Amount, spends: seq<(Amount, nat)>): (r: seq<Entry>)
    ensures |r| == |s|
  {
    if spends == [] then s
    else
      var n := |spends| - 1;
      FlagOne(Flagged(s, a, spends[..n]), a, spends[n])
  }

  ghost predicate InRange(l: Ledger, spends: seq<(Amount, nat)>) {
    forall p <- spends :: Has(l, p.0, p.1)
  }

  lemma {:induction false} FlaggedAt(s: seq<Entry>, a: Amount, spends: seq<(Amount, nat)>, i: nat)
    requires i < |s|
    ensures Flagged(s, a, spends)[i] == if (a, i) in spends then s[i].(spent := true) else s[i]
  {
    if spends != [] {
      FlaggedAt(s, a, spends[..|spends| - 1], i);
    }
  }

  lemma {:induction false} FlaggedAppend(s: seq<Entry>, t: seq<Entry>, a: Amount, xs: seq<(Amount, nat)>,
                                         ys: seq<(Amount, nat)>)
    requires forall p <- ys :: p.0 == a ==> p.1 < |s|
    ensures Flagged(Flagged(s, a, xs) + t, a, ys) == Flagged(s, a, xs + ys) + t
  {
    if ys == [] {
      assert xs + ys == xs;
    } else {
      var n := |ys| - 1;
      assert (xs + ys)[..|xs + ys| - 1] == xs + ys[..n];
      FlaggedAppend(s, t, a, xs, ys[..n]);
      assert ys[n] in ys;
    }
  }

  lemma {:induction false} EntriesAppend(ps: seq<Pushed>, qs: seq<Pushed>, h: Height)
    ensures Entries(ps + qs, h) == Entries(ps, h) + Entries(qs, h)
  {
    if qs == [] {
      assert ps + qs == ps;
    } else {
      var n := |qs| - 1;
      assert (ps + qs)[..|ps + qs| - 1] == ps + qs[..n];
      EntriesAppend(ps, qs[..n], h);
    }
  }

  lemma {:induction false} EntriesPush(ps: seq<Pushed>, p: Pushed, h: Height)
    ensures Entries(ps + [p], h) == Entries(ps, h) + [Entry(p.unlockTime, p.key, h, false)]
  {
    assert (ps + [p])[..|ps|] == ps;
  }

  // ---- the effect of executing, amount by amount ----

  lemma {:induction false} KeyImagesAppend(xs: seq<Input>, ys: seq<Input>, h: Height)
    ensures KeyImagesOf(xs + ys, h) == KeyImagesOf(xs, h) + KeyImagesOf(ys, h)
  {
    if ys == [] {
      assert xs + ys == xs;
    } else {
      var n := |ys| - 1;
      assert (xs + ys)[..|xs + ys| - 1] == xs + ys[..n];
      KeyImagesAppend(xs, ys[..n], h);
    }
  }

  lemma {:induction false} SpendsAppend(xs: seq<Input>, ys: seq<Input>)
    ensures SpendsOf(xs + ys) == SpendsOf(xs) + SpendsOf(ys)
  {
    if ys == [] {
      assert xs + ys == xs;
    } else {
      var n := |ys| - 1;
      assert (xs + ys)[..|xs + ys| - 1] == xs + ys[..n];
      SpendsAppend(xs, ys[..n]);
    }
  }

  lemma {:induction false} InputsKeyImages(l: Ledger, inputs: seq<Input>, h: Height)
    ensures ExecInputs(l, inputs, h).keyImages == l.keyImages + KeyImagesOf(inputs, h)
  {
    if inputs != [] {
      InputsKeyImages(l, inputs[..|inputs| - 1], h);
    }
  }

  lemma {:induction false} InputsStack(l: Ledger, inputs: seq<Input>, h: Height, a: Amount)
    ensures Stack(ExecInputs(l, inputs, h), a) == Flagged(Stack(l, a), a, SpendsOf(inputs))
  {
    if inputs != [] {
      var n := |inputs| - 1;
      InputsStack(l, inputs[..n], h, a);
      var m := ExecInputs(l, inputs[..n], h);
      if NamesOutput(inputs[n]) {
        var p := (inputs[n].amount, inputs[n].outputIndexes[0]);
        assert SpendsOf(inputs) == SpendsOf(inputs[..n]) + [p];
        assert SpendsOf(inputs)[..|SpendsOf(inputs)| - 1] == SpendsOf(inputs[..n]);
        assert Stack(Mark(m, p.0, p.1, true), a) == FlagOne(Stack(m, a), a, p);
      }
    }
  }

  lemma {:induction false} OutputsKeyImages(l: Ledger, unlockTime: nat, outputs: seq<Output>, h: Height)
    ensures ExecOutputs(l, unlockTime, outputs, h).keyImages == l.keyImages
  {
    if outputs != [] {
      OutputsKeyImages(l, unlockTime, outputs[..|outputs| - 1], h);
    }
  }

  lemma {:induction false} StackOfPush(l: Ledger, b: Amount, e: Entry, a: Amount)
    ensures Stack(Push(l, b, e), a) == if b == a then Stack(l, a) + [e] else Stack(l, a)
  {
  }

  lemma {:induction false} OutputsStack(l: Ledger, unlockTime: nat, outputs: seq<Output>, h: Height, a: Amount)
    ensures Stack(ExecOutputs(l, unlockTime, outputs, h), a)
            == Stack(l, a) + Entries(OutputsOf(unlockTime, outputs, a), h)
  {
    hide Push, Stack, Entries, Normal;
    if outputs == [] {
      NoEntries(h);
    } else {
      var n := |outputs| - 1;
      var m, ps := ExecOutputs(l, unlockTime, outputs[..n], h), OutputsOf(unlockTime, outputs[..n], a);
      OutputsStack(l, unlockTime, outputs[..n], h, a);
      OneMoreOutput(l, m, ps, unlockTime, outputs[n], h, a);
    }
  }

  lemma {:induction false} NoEntries(h: Height)
    ensures Entries([], h) == []
  {
  }

  lemma {:induction false} OneMoreOutput(l: Ledger, m: Ledger, ps: seq<Pushed>, unlockTime: nat, o: Output, h: Height,
                                         a: Amount)
    requires Stack(m, a) == Stack(l, a) + Entries(ps, h)
    ensures Stack(Push(m, o.amount, Entry(unlockTime, o.key, h, false)), a)
            == Stack(l, a) + Entries(if o.amount == a then ps + [Pushed(unlockTime, o.key)] else ps, h)
  {
    hide Normal;
    var e := Entry(unlockTime, o.key, h, false);
    StackOfPush(m, o.amount, e, a);
    EntriesPush(ps, Pushed(unlockTime, o.key), h);
    hide Push, Stack, Entries;
    assert Stack(l, a) + Entries(ps, h) + [e] == Stack(l, a) + (Entries(ps, h) + [e]);
  }

  lemma {:induction false} TxsKeyImages(l: Ledger, txs: seq<Transaction>, h: Height)
    ensures ExecTxs(l, txs, h).keyImages == l.keyImages + KeyImagesOf(AllInputs(txs), h)
  {
    if txs != [] {
      var n := |txs| - 1;
      var m := ExecTxs(l, txs[..n], h);
      TxsKeyImages(l, txs[..n], h);
      KeyImagesAppend(AllInputs(txs[..n]), txs[n].inputs, h);
      InputsKeyImages(m, txs[n].inputs, h);
      OutputsKeyImages(ExecInputs(m, txs[n].inputs, h), txs[n].unlockTime, txs[n].outputs, h);
    }
  }

  lemma {:induction false} TxStack(m: Ledger, tx: Transaction, h: Height, a: Amount)
    ensures Stack(ExecTx(m, tx, h), a) ==
            Flagged(Stack(m, a), a, SpendsOf(tx.inputs)) + Entries(OutputsOf(tx.unlockTime, tx.outputs, a), h)
  {
    InputsStack(m, tx.inputs, h, a);
    OutputsStack(ExecInputs(m, tx.inputs, h), tx.unlockTime, tx.outputs, h, a);
  }

  lemma {:induction false} TxsStack(l: Ledger, txs: seq<Transaction>, h: Height, a: Amount)
    requires InRange(l, SpendsOf(AllInputs(txs)))
    ensures Stack(ExecTxs(l, txs, h), a) ==
            Flagged(Stack(l, a), a, SpendsOf(AllInputs(txs))) + Entries(AllOutputsOf(txs, a), h)
  {
    if txs != [] {
      var n := |txs| - 1;
      var tx := txs[n];
      var xs, ys := SpendsOf(AllInputs(txs[..n])), SpendsOf(tx.inputs);
      SpendsAppend(AllInputs(txs[..n]), tx.inputs);
      assert SpendsOf(AllInputs(txs)) == xs + ys;
      TxsStack(l, txs[..n], h, a);
      TxStack(ExecTxs(l, txs[..n], h), tx, h, a);
      FlagThenAppend(Stack(l, a), a, xs, ys, AllOutputsOf(txs[..n], a), OutputsOf(tx.unlockTime, tx.outputs, a), h);
    }
  }

  lemma {:induction false} FlagThenAppend(s: seq<Entry>, a: Amount, xs: seq<(Amount, nat)>, ys: seq<(Amount, nat)>,
                       ps: seq<Pushed>, qs: seq<Pushed>, h: Height)
    requires forall p <- xs + ys :: p.0 == a ==> p.1 < |s|
    ensures Flagged(Flagged(s, a, xs) + Entries(ps, h), a, ys) + Entries(qs, h) ==
            Flagged(s, a, xs + ys) + Entries(ps + qs, h)
  {
    forall p | p in ys
      ensures p.0 == a ==> p.1 < |s|
    {
      assert p in xs + ys;
    }
    FlaggedAppend(s, Entries(ps, h), a, xs, ys);
    EntriesAppend(ps, qs, h);
  }

  // ---- the same up to the spent flags, without any assumption on the inputs ----

  function Unflagged(s: seq<Entry>): (r: seq<Entry>)
    ensures |r| == |s|
  {
    if s == [] then [] else Unflagged(s[..|s| - 1]) + [s[|s| - 1].(spent := false)]
  }

  lemma {:induction false} UnflaggedAt(s: seq<Entry>, i: nat)
    requires i < |s|
    ensures Unflagged(s)[i] == s[i].(spent := false)
  {
    if i < |s| - 1 {
      UnflaggedAt(s[..|s| - 1], i);
    }
  }

  lemma {:induction false} UnflaggedSame(s: seq<Entry>, t: seq<Entry>)
    requires |s| == |t| && forall i | 0 <= i < |s| :: s[i].(spent := false) == t[i].(spent := false)
    ensures Unflagged(s) == Unflagged(t)
  {
    forall i | 0 <= i < |s|
      ensures Unflagged(s)[i] == Unflagged(t)[i]
    {
      UnflaggedAt(s, i);
      UnflaggedAt(t, i);
    }
  }

  lemma {:induction false} UnflaggedFlagged(s: seq<Entry>, a: Amount, spends: seq<(Amount, nat)>)
    ensures Unflagged(Flagged(s, a, spends)) == Unflagged(s)
  {
    forall i | 0 <= i < |s|
      ensures Flagged(s, a, spends)[i].(spent := false) == s[i].(spent := false)
    {
      FlaggedAt(s, a, spends, i);
    }
    UnflaggedSame(Flagged(s, a, spends), s);
  }

  lemma {:induction false} UnflaggedEntries(s: seq<Entry>, ps: seq<Pushed>, h: Height)
    ensures Unflagged(s + Entries(ps, h)) == Unflagged(s) + Entries(ps, h)
  {
    if ps == [] {
      assert s + Entries(ps, h) == s;
    } else {
      var n := |ps| - 1;
      var t := s + Entries(ps, h);
      assert t[..|t| - 1] == s + Entries(ps[..n], h);
      UnflaggedEntries(s, ps[..n], h);
    }
  }

  lemma {:induction false} TxStackButSpent(m: Ledger, tx: Transaction, h: Height, a: Amount)
    ensures Unflagged(Stack(ExecTx(m, tx, h), a))
            == Unflagged(Stack(m, a)) + Entries(OutputsOf(tx.unlockTime, tx.outputs, a), h)
  {
    hide Flagged, Unflagged, Entries, OutputsOf, SpendsOf, Stack, ExecTx;
    TxStack(m, tx, h, a);
    UnflaggedFlagged(Stack(m, a), a, SpendsOf(tx.inputs));
    UnflaggedEntries(Flagged(Stack(m, a), a, SpendsOf(tx.inputs)), OutputsOf(tx.unlockTime, tx.outputs, a), h);
  }

  lemma {:induction false} TxsStackButSpent(l: Ledger, txs: seq<Transaction>, h: Height, a: Amount)
    ensures Unflagged(Stack(ExecTxs(l, txs, h), a)) == Unflagged(Stack(l, a)) + Entries(AllOutputsOf(txs, a), h)
  {
    hide Unflagged, OutputsOf, Stack, ExecTx;
    if txs != [] {
      var n := |txs| - 1;
      TxsStackButSpent(l, txs[..n], h, a);
      TxStackButSpent(ExecTxs(l, txs[..n], h), txs[n], h, a);
      EntriesAppend(AllOutputsOf(txs[..n], a), OutputsOf(txs[n].unlockTime, txs[n].outputs, a), h);
      hide Entries;
    }
  }

  // ---- undoing is the inverse of executing ----

  /** The inputs spend fresh key images, and those that name an output name different, existing, unspent ones. */
  ghost predicate Fresh(l: Ledger, inputs: seq<Input>) {
    && (forall i | 0 <= i < |inputs| && inputs[i].KeyInput? :: inputs[i].keyImage !in l.keyImages)
    && (forall i, j | 0 <= i < j < |inputs| && inputs[i].KeyInput? && inputs[j].KeyInput? ::
          inputs[i].keyImage != inputs[j].keyImage)
    && (forall i | 0 <= i < |inputs| && NamesOutput(inputs[i]) ::
          Has(l, inputs[i].amount, inputs[i].outputIndexes[0])
          && !Stack(l, inputs[i].amount)[inputs[i].outputIndexes[0]].spent)
    && (forall i, j | 0 <= i < j < |inputs| && NamesOutput(inputs[i]) && NamesOutput(inputs[j]) ::
          inputs[i].amount != inputs[j].amount || inputs[i].outputIndexes[0] != inputs[j].outputIndexes[0])
  }

  lemma {:induction false} KeyImagesMember(inputs: seq<Input>, h: Height, ki: KeyImage)
    ensures ki in KeyImagesOf(inputs, h) <==>
            exists i :: 0 <= i < |inputs| && inputs[i].KeyInput? && inputs[i].keyImage == ki
  {
    if inputs != [] {
      var n := |inputs| - 1;
      KeyImagesMember(inputs[..n], h, ki);
      if i :| 0 <= i < |inputs| && inputs[i].KeyInput? && inputs[i].keyImage == ki {
        assert i < n ==> inputs[..n][i] == inputs[i];
      }
    }
  }

  lemma {:induction false} SpendsMember(inputs: seq<Input>, p: (Amount, nat))
    ensures p in SpendsOf(inputs) <==>
            exists i :: 0 <= i < |inputs| && NamesOutput(inputs[i])
                && (inputs[i].amount, inputs[i].outputIndexes[0]) == p
  {
    if inputs != [] {
      var n := |inputs| - 1;
      SpendsMember(inputs[..n], p);
      if i :| 0 <= i < |inputs| && NamesOutput(inputs[i]) && (inputs[i].amount, inputs[i].outputIndexes[0]) == p {
        assert i < n ==> inputs[..n][i] == inputs[i];
      }
    }
  }

  lemma {:induction false} FreshPrefix(l: Ledger, xs: seq<Input>, ys: seq<Input>)
    requires Fresh(l, xs + ys)
    ensures Fresh(l, xs)
  {
    assert forall i | 0 <= i < |xs| :: (xs + ys)[i] == xs[i];
  }

  /** What executing the first part of a fresh list leaves for an input of the second part. */
  lemma {:induction false} FreshNext(l: Ledger, xs: seq<Input>, i: Input, ys: seq<Input>, k: nat, h: Height)
    requires Fresh(l, xs + ys) && k < |ys| && ys[k] == i && i.KeyInput?
    ensures i.keyImage !in l.keyImages + KeyImagesOf(xs, h)
    ensures NamesOutput(i) ==>
              var s := Flagged(Stack(l, i.amount), i.amount, SpendsOf(xs));
              i.outputIndexes[0] < |s| && !s[i.outputIndexes[0]].spent
  {
    var all := xs + ys;
    assert all[|xs| + k] == i;
    assert forall j | 0 <= j < |xs| :: all[j] == xs[j];
    KeyImagesMember(xs, h, i.keyImage);
    if NamesOutput(i) {
      SpendsMember(xs, (i.amount, i.outputIndexes[0]));
      FlaggedAt(Stack(l, i.amount), i.amount, SpendsOf(xs), i.outputIndexes[0]);
    }
  }

  lemma {:induction false} UndoInputsInverse(l: Ledger, inputs: seq<Input>, h: Height)
    requires Normal(l) && Fresh(l, inputs)
    ensures UndoInputs(ExecInputs(l, inputs, h), inputs) == Some(l)
  {
    if inputs != [] {
      var n := |inputs| - 1;
      var last := inputs[n];
      var m := ExecInputs(l, inputs[..n], h);
      assert inputs[..n] + [last] == inputs;
      FreshPrefix(l, inputs[..n], [last]);
      UndoInputsInverse(l, inputs[..n], h);
      if last.KeyInput? {
        FreshNext(l, inputs[..n], last, [last], 0, h);
        InputsKeyImages(l, inputs[..n], h);
        InputsStack(l, inputs[..n], h, last.amount);
        StoreThenUndo(m, last, h);
      }
    }
  }

  lemma {:induction false} StoreThenUndo(l: Ledger, i: Input, h: Height)
    requires Normal(l) && i.KeyInput? && i.keyImage !in l.keyImages
    requires NamesOutput(i) ==> Has(l, i.amount, i.outputIndexes[0]) && !Stack(l, i.amount)[i.outputIndexes[0]].spent
    ensures UndoInput(ExecInput(l, i, h), i) == Some(l)
  {
    assert l.keyImages[i.keyImage := h] - {i.keyImage} == l.keyImages;
    if NamesOutput(i) {
      var a, g := i.amount, i.outputIndexes[0];
      var r := Mark(WithoutKeyImage(WithKeyImage(Mark(l, a, g, true), i.keyImage, h), i.keyImage), a, g, false);
      assert Stack(r, a) == Stack(l, a);
      SameReads(r, l);
    }
  }

  lemma {:induction false} PushThenPop(l: Ledger, a: Amount, e: Entry)
    requires Normal(l) && !e.spent
    ensures PopExpecting(Push(l, a, e), a, e.unlockTime, e.key) == Some(l)
  {
    var r := Pop(Push(l, a, e), a);
    assert Stack(r, a) == Stack(l, a);
    SameReads(r, l);
  }

  lemma {:induction false} UndoOutputsInverse(l: Ledger, unlockTime: nat, outputs: seq<Output>, h: Height)
    requires Normal(l)
    ensures UndoOutputs(ExecOutputs(l, unlockTime, outputs, h), unlockTime, outputs) == Some(l)
  {
    if outputs != [] {
      var n := |outputs| - 1;
      UndoOutputsInverse(l, unlockTime, outputs[..n], h);
      PushThenPop(ExecOutputs(l, unlockTime, outputs[..n], h), outputs[n].amount,
          Entry(unlockTime, outputs[n].key, h, false));
    }
  }

  lemma {:induction false} FreshInRange(l: Ledger, xs: seq<Input>)
    requires Fresh(l, xs)
    ensures InRange(l, SpendsOf(xs))
  {
    forall p | p in SpendsOf(xs)
      ensures Has(l, p.0, p.1)
    {
      SpendsMember(xs, p);
    }
  }

  lemma {:induction false} TxKeepsFresh(l: Ledger, txs: seq<Transaction>, tx: Transaction, h: Height)
    requires Fresh(l, AllInputs(txs) + tx.inputs)
    ensures Fresh(ExecTxs(l, txs, h), tx.inputs)
  {
    hide ExecTxs, AllInputs, AllOutputsOf, Entries, SpendsOf, KeyImagesOf;
    var before := AllInputs(txs);
    var ins := tx.inputs;
    var m := ExecTxs(l, txs, h);
    FreshPrefix(l, before, ins);
    FreshInRange(l, before);
    TxsKeyImages(l, txs, h);
    forall i | 0 <= i < |ins| && ins[i].KeyInput?
      ensures ins[i].keyImage !in m.keyImages
      ensures NamesOutput(ins[i]) ==>
                && Has(m, ins[i].amount, ins[i].outputIndexes[0])
                && !Stack(m, ins[i].amount)[ins[i].outputIndexes[0]].spent
    {
      FreshNext(l, before, ins[i], ins, i, h);
      TxsStack(l, txs, h, ins[i].amount);
    }
    assert forall i | 0 <= i < |ins| :: (before + ins)[|before| + i] == ins[i];
  }

  /** Undoing the transactions of a block, last first, gives back the ledger they were executed on, and none of
      the checks made on the way fails. */
  lemma {:induction false} UndoTxsInverse(l: Ledger, txs: seq<Transaction>, h: Height)
    requires Normal(l) && Fresh(l, AllInputs(txs))
    ensures UndoTxs(ExecTxs(l, txs, h), txs) == Some(l)
  {
    if txs != [] {
      var n := |txs| - 1;
      var tx := txs[n];
      var m := ExecTxs(l, txs[..n], h);
      FreshPrefix(l, AllInputs(txs[..n]), tx.inputs);
      UndoTxsInverse(l, txs[..n], h);
      TxKeepsFresh(l, txs[..n], tx, h);
      UndoInputsInverse(m, tx.inputs, h);
      UndoOutputsInverse(ExecInputs(m, tx.inputs, h), tx.unlockTime, tx.outputs, h);
    }
  }
}
