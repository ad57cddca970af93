/** The part of BlockChainState that blocks are applied to and undone from: the key images and the outputs in the
    database, and the cache of next global indexes beside it. */
module StateDbs {
  import opened ChainTypes
  import opened Ledgers
  import opened Execution
  import opened Overlay
  import opened DeltaStates

  class StateDb {
    var keyImages: map<KeyImage, Height>
    var outputs: map<(Amount, nat), Entry>
    var nextIndex: map<Amount, nat> // cache: an amount is missing until it is first asked for
    ghost var ledger: Ledger

    ghost predicate Valid()
      reads this
    {
      && Normal(ledger)
      && keyImages == ledger.keyImages
      && Mirrors(outputs, ledger)
      && (forall a <- nextIndex :: nextIndex[a] == |Stack(ledger, a)|)
    }

    /** What an overlay on top of this database reads. */
    function Snapshot(): (l: Ledger)
      requires Valid()
      reads this
      ensures l == ledger
    {
      var stacks := map a | a in (set k <- outputs.Keys :: k.0) ::
          (IndexesOf(outputs, ledger, a); Rows(outputs, a, |Indexes(outputs, a)|));
      assert stacks == ledger.stacks by {
        forall a: Amount
          ensures a in stacks <==> a in ledger.stacks
          ensures a in stacks ==> stacks[a] == ledger.stacks[a]
        {
          StackOfRows(outputs, ledger, a);
        }
      }
      Ledger(keyImages, stacks)
    }

    constructor ()
      ensures Valid() && ledger == EMPTY
    {
      keyImages, outputs, nextIndex := map[], map[], map[];
      ledger := EMPTY;
    }

    /** A missing cache entry is found with a cursor placed on the last output of the amount. */
    method NextGlobalIndex(a: Amount) returns (n: nat)
      requires Valid()
      modifies this`nextIndex
      ensures Valid() && n == |Stack(ledger, a)|
      ensures a in nextIndex
    {
      if a in nextIndex {
        return nextIndex[a];
      }
      if p :| p in outputs && p.0 == a {
        assert Has(ledger, a, p.1);
        assert Has(ledger, a, |Stack(ledger, a)| - 1);
        assert (a, |Stack(ledger, a)| - 1) in outputs;
        assert forall q <- outputs.Keys | q.0 == a :: Has(ledger, q.0, q.1) by {
          forall q | q in outputs.Keys && q.0 == a
            ensures Has(ledger, q.0, q.1)
          {
            assert q == (q.0, q.1);
          }
        }
        var last :| last in outputs && last.0 == a && forall q <- outputs.Keys | q.0 == a :: q.1 <= last.1;
        assert last == (a, last.1);
        n := last.1 + 1;
      } else {
        NothingMirrored(outputs, ledger, a);
        n := 0;
      }
      nextIndex := nextIndex[a := n];
    }

    method StoreKeyImage(ki: KeyImage, h: Height) returns (ok: bool)
      requires Valid()
      modifies this`keyImages, this`ledger
      ensures ok == (ki !in old(ledger).keyImages)
      ensures Valid()
      ensures ledger == if ok then WithKeyImage(old(ledger), ki, h) else old(ledger)
    {
      ok := ki !in keyImages;
      if ok {
        keyImages := keyImages[ki := h];
        ledger := WithKeyImage(ledger, ki, h);
      }
    }

    method DeleteKeyImage(ki: KeyImage) returns (ok: bool)
      requires Valid()
      modifies this`keyImages, this`ledger
      ensures ok == (ki in old(ledger).keyImages)
      ensures Valid()
      ensures ledger == if ok then WithoutKeyImage(old(ledger), ki) else old(ledger)
    {
      ok := ki in keyImages;
      if ok {
        keyImages := keyImages - {ki};
        ledger := WithoutKeyImage(ledger, ki);
      }
    }

    method PushAmountOutput(a: Amount, unlockTime: nat, h: Height, key: PublicKey) returns (index: nat)
      requires Valid()
      modifies this`outputs, this`nextIndex, this`ledger
      ensures Valid()
      ensures ledger == Push(old(ledger), a, Entry(unlockTime, key, h, false))
      ensures index == |Stack(old(ledger), a)|
    {
      index := NextGlobalIndex(a);
      assert (a, index) !in outputs by { // the key being written is new
        assert !Has(ledger, a, index);
      }
      outputs := outputs[(a, index) := Entry(unlockTime, key, h, false)];
      nextIndex := nextIndex[a := nextIndex[a] + 1];
      ledger := Push(ledger, a, Entry(unlockTime, key, h, false));
    }

    /** False when an invariant fires: nothing to pop, or the last output is not the expected one. */
    method PopAmountOutput(a: Amount, unlockTime: nat, key: PublicKey) returns (ok: bool)
      requires Valid()
      modifies this`outputs, this`nextIndex, this`ledger
      ensures ok == PopExpecting(old(ledger), a, unlockTime, key).Some?
      ensures ok ==> Valid() && ledger == PopExpecting(old(ledger), a, unlockTime, key).value
    {
      var next := NextGlobalIndex(a);
      if next == 0 {
        return false;
      }
      next := next - 1;
      assert Has(ledger, a, next);
      nextIndex := nextIndex[a := nextIndex[a] - 1];
      if (a, next) !in outputs {
        return false;
      }
      var top := outputs[(a, next)];
      if top.spent || top.unlockTime != unlockTime || top.key != key {
        return false;
      }
      outputs := outputs - {(a, next)};
      ledger := Pop(ledger, a);
      return true;
    }

    method SpendOutput(a: Amount, g: nat, flag: bool)
      requires Valid()
      modifies this`outputs, this`ledger
      ensures Valid() && ledger == Mark(old(ledger), a, g, flag)
    {
      if (a, g) in outputs {
        assert Has(ledger, a, g);
        outputs := outputs[(a, g) := outputs[(a, g)].(spent := flag)];
      }
      ledger := Mark(ledger, a, g, flag);
    }

    // ---- applying an overlay ----

    method ApplyKeyImages(delta: DeltaState) returns (ok: bool)
      requires Valid()
      modifies this`keyImages, this`ledger
      ensures ok == (delta.keyImages.Keys !! old(ledger).keyImages.Keys)
      ensures ok ==> Valid() && ledger == old(ledger).(keyImages := old(ledger).keyImages + delta.keyImages)
    {
      ghost var was, added := ledger, delta.keyImages;
      var todo := delta.keyImages.Keys;
      while todo != {}
        invariant todo <= added.Keys
        invariant Valid() && added.Keys - todo !! was.keyImages.Keys
        invariant ledger == was.(keyImages := was.keyImages + (added - todo))
      {
        var ki :| ki in todo;
        var stored := StoreKeyImage(ki, delta.keyImages[ki]);
        if !stored {
          return false;
        }
        assert was.keyImages + (added - (todo - {ki})) == (was.keyImages + (added - todo))[ki := added[ki]];
        todo := todo - {ki};
      }
      assert added - todo == added;
      return true;
    }

    method PushStack(a: Amount, pushed: seq<Pushed>, h: Height)
      requires Valid()
      modifies this`outputs, this`nextIndex, this`ledger
      ensures Valid() && ledger == PushMany(old(ledger), a, pushed, h)
    {
      var i := 0;
      while i < |pushed|
        invariant i <= |pushed|
        invariant Valid() && ledger == PushMany(old(ledger), a, pushed[..i], h)
      {
        assert pushed[..i + 1][..i] == pushed[..i];
        var _ := PushAmountOutput(a, pushed[i].unlockTime, h, pushed[i].key);
        i := i + 1;
      }
      assert pushed[..i] == pushed;
    }

    method ApplyAmounts(delta: DeltaState)
      requires Valid()
      modifies this`outputs, this`nextIndex, this`ledger
      ensures Valid() && ledger == PushAll(old(ledger), delta.globalAmounts, delta.blockHeight)
    {
      ghost var was, amounts, h := ledger, delta.globalAmounts, delta.blockHeight;
      var todo := delta.globalAmounts.Keys;
      while todo != {}
        invariant todo <= amounts.Keys
        invariant Valid() && PartlyPushed(was, ledger, amounts, todo, h)
      {
        var a :| a in todo;
        ghost var before := ledger;
        PushStack(a, delta.globalAmounts[a], delta.blockHeight);
        PartlyPushedStep(was, before, amounts, todo, a, h);
        todo := todo - {a};
      }
      AllPushed(was, ledger, amounts, h);
    }

    /** False when a key image of the overlay is in the database already. */
    method ApplyDelta(delta: DeltaState) returns (ok: bool)
      requires Valid()
      modifies this
      ensures ok == (delta.keyImages.Keys !! old(ledger).keyImages.Keys)
      ensures ok ==> Valid() && ledger == ApplyTo(old(ledger), delta.Content(), delta.blockHeight)
    {
      ok := ApplyKeyImages(delta);
      if !ok {
        return;
      }
      ApplyAmounts(delta);
      ghost var base := ledger;
      var i := 0;
      while i < |delta.spentOutputs|
        invariant i <= |delta.spentOutputs|
        invariant Valid() && ledger == MarkAll(base, delta.spentOutputs[..i])
      {
        assert delta.spentOutputs[..i + 1][..i] == delta.spentOutputs[..i];
        SpendOutput(delta.spentOutputs[i].0, delta.spentOutputs[i].1, true);
        i := i + 1;
      }
      assert delta.spentOutputs[..i] == delta.spentOutputs;
    }

    // ---- undoing ----

    method UndoTransaction(tx: Transaction) returns (ok: bool)
      requires Valid()
      modifies this
      ensures ok == UndoTx(old(ledger), tx).Some?
      ensures ok ==> Valid() && ledger == UndoTx(old(ledger), tx).value
    {
      ok := PopOutputs(tx);
      if ok {
        ok := DeleteInputs(tx);
      }
    }

    method PopOutputs(tx: Transaction) returns (ok: bool)
      requires Valid()
      modifies this
      ensures ok == UndoOutputs(old(ledger), tx.unlockTime, tx.outputs).Some?
      ensures ok ==> Valid() && ledger == UndoOutputs(old(ledger), tx.unlockTime, tx.outputs).value
    {
      assert tx.outputs[..|tx.outputs|] == tx.outputs;
      var j := |tx.outputs|;
      while j > 0
        invariant 0 <= j <= |tx.outputs| && Valid()
        invariant UndoOutputs(old(ledger), tx.unlockTime, tx.outputs)
                  == UndoOutputs(ledger, tx.unlockTime, tx.outputs[..j])
      {
        j := j - 1;
        assert tx.outputs[..j + 1][..j] == tx.outputs[..j];
        ok := PopAmountOutput(tx.outputs[j].amount, tx.unlockTime, tx.outputs[j].key);
        if !ok {
          return;
        }
      }
      return true;
    }

    method DeleteInputs(tx: Transaction) returns (ok: bool)
      requires Valid()
      modifies this
      ensures ok == UndoInputs(old(ledger), tx.inputs).Some?
      ensures ok ==> Valid() && ledger == UndoInputs(old(ledger), tx.inputs).value
    {
      assert tx.inputs[..|tx.inputs|] == tx.inputs;
      var i := |tx.inputs|;
      while i > 0
        invariant 0 <= i <= |tx.inputs| && Valid()
        invariant UndoInputs(old(ledger), tx.inputs) == UndoInputs(ledger, tx.inputs[..i])
      {
        i := i - 1;
        assert tx.inputs[..i + 1][..i] == tx.inputs[..i];
        if tx.inputs[i].KeyInput? {
          ok := DeleteKeyImage(tx.inputs[i].keyImage);
          if !ok {
            return;
          }
          if |tx.inputs[i].outputIndexes| == 1 {
            SpendOutput(tx.inputs[i].amount, tx.inputs[i].outputIndexes[0], false);
          }
        }
      }
      return true;
    }
  }

  // ---- reading the outputs of one amount back from the database ----

  lemma {:induction false} NothingMirrored(outputs: map<(Amount, nat), Entry>, l: Ledger, a: Amount)
    requires Mirrors(outputs, l) && forall p <- outputs :: p.0 != a
    ensures Stack(l, a) == []
  {
    assert (a, 0) in outputs <==> Has(l, a, 0);
  }

  ghost predicate Mirrors(outputs: map<(Amount, nat), Entry>, l: Ledger) {
    && (forall a: Amount, g: nat :: (a, g) in outputs <==> Has(l, a, g))
    && (forall a: Amount, g: nat :: Has(l, a, g) ==> outputs[(a, g)] == Stack(l, a)[g])
  }

  function Indexes(outputs: map<(Amount, nat), Entry>, a: Amount): set<nat> {
    set k | k in outputs.Keys && k.0 == a :: k.1
  }

  function Rows(outputs: map<(Amount, nat), Entry>, a: Amount, n: nat): seq<Entry>
    requires forall g: nat :: g < n ==> (a, g) in outputs
  {
    if n == 0 then [] else Rows(outputs, a, n - 1) + [outputs[(a, n - 1)]]
  }

  lemma {:induction false} CardinalityBelow(s: set<nat>, n: nat)
    requires forall g: nat :: g in s <==> g < n
    ensures |s| == n
  {
    if n > 0 {
      CardinalityBelow(s - {n - 1}, n - 1);
    } else {
      assert s == {};
    }
  }

  lemma {:induction false} IndexesOf(outputs: map<(Amount, nat), Entry>, l: Ledger, a: Amount)
    requires Mirrors(outputs, l)
    ensures |Indexes(outputs, a)| == |Stack(l, a)|
    ensures forall g: nat :: g < |Indexes(outputs, a)| ==> (a, g) in outputs
  {
    forall g: nat
      ensures g in Indexes(outputs, a) <==> g < |Stack(l, a)|
    {
      assert (a, g) in outputs <==> Has(l, a, g);
      if g in Indexes(outputs, a) {
        var k :| k in outputs.Keys && k.0 == a && k.1 == g;
        assert k == (a, g);
      }
      if (a, g) in outputs {
        assert (a, g) in outputs.Keys && (a, g).0 == a && (a, g).1 == g;
      }
    }
    CardinalityBelow(Indexes(outputs, a), |Stack(l, a)|);
  }

  lemma {:induction false} RowsOf(outputs: map<(Amount, nat), Entry>, l: Ledger, a: Amount, n: nat)
    requires Mirrors(outputs, l) && n <= |Stack(l, a)|
    requires forall g: nat :: g < n ==> (a, g) in outputs
    ensures Rows(outputs, a, n) == Stack(l, a)[..n]
  {
    if n > 0 {
      RowsOf(outputs, l, a, n - 1);
      assert Has(l, a, n - 1);
    }
  }

  // ---- outputs pushed amount by amount, in any order of the amounts ----

  function PushMany(l: Ledger, a: Amount, pushed: seq<Pushed>, h: Height): (r: Ledger)
    ensures r.keyImages == l.keyImages
    ensures Normal(l) ==> Normal(r)
  {
    if pushed == [] then l
    else
      var n := |pushed| - 1;
      Push(PushMany(l, a, pushed[..n], h), a, Entry(pushed[n].unlockTime, pushed[n].key, h, false))
  }

  lemma {:induction false} PushManyStack(l: Ledger, a: Amount, pushed: seq<Pushed>, h: Height, b: Amount)
    ensures Stack(PushMany(l, a, pushed, h), b) == if b == a then Stack(l, b) + Entries(pushed, h) else Stack(l, b)
  {
    if pushed != [] {
      PushManyStack(l, a, pushed[..|pushed| - 1], h, b);
    }
  }

  lemma {:induction false} StackOfRows(outputs: map<(Amount, nat), Entry>, l: Ledger, a: Amount)
    requires Mirrors(outputs, l) && Normal(l)
    ensures (exists k <- outputs.Keys :: k.0 == a) <==> a in l.stacks
    ensures forall g: nat :: g < |Indexes(outputs, a)| ==> (a, g) in outputs
    ensures a in l.stacks ==> Rows(outputs, a, |Indexes(outputs, a)|) == l.stacks[a]
  {
    IndexesOf(outputs, l, a);
    RowsOf(outputs, l, a, |Stack(l, a)|);
    if k :| k in outputs.Keys && k.0 == a {
      assert Has(l, k.0, k.1);
    }
    if a in l.stacks {
      assert Has(l, a, 0);
      assert (a, 0) in outputs.Keys;
    }
  }

  ghost predicate PartlyPushed(was: Ledger, l: Ledger, amounts: map<Amount, seq<Pushed>>, todo: set<Amount>,
                               h: Height) {
    && l.keyImages == was.keyImages
    && forall b :: Stack(l, b) == if b in todo then Stack(was, b) else Stack(was, b) + Entries(Get(amounts, b), h)
  }

  lemma {:induction false} PartlyPushedStep(was: Ledger, l: Ledger, amounts: map<Amount, seq<Pushed>>,
                                            todo: set<Amount>, a: Amount, h: Height)
    requires PartlyPushed(was, l, amounts, todo, h) && a in todo && a in amounts
    ensures PartlyPushed(was, PushMany(l, a, amounts[a], h), amounts, todo - {a}, h)
  {
    forall b: Amount
      ensures Stack(PushMany(l, a, amounts[a], h), b) ==
              if b in todo - {a} then Stack(was, b) else Stack(was, b) + Entries(Get(amounts, b), h)
    {
      PushManyStack(l, a, amounts[a], h, b);
    }
  }

  lemma {:induction false} AllPushed(was: Ledger, l: Ledger, amounts: map<Amount, seq<Pushed>>, h: Height)
    requires Normal(was) && Normal(l) && PartlyPushed(was, l, amounts, {}, h)
    ensures l == PushAll(was, amounts, h)
  {
    var all := PushAll(was, amounts, h);
    forall b: Amount
      ensures Stack(l, b) == Stack(all, b)
    {
      assert Stack(l, b) == Stack(was, b) + Entries(Get(amounts, b), h);
    }
    SameReads(l, all);
  }
}
