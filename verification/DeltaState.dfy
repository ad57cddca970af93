/** BlockChainState::DeltaState as an object, and the execution of one transaction on top of it. */
module DeltaStates {
  import opened ChainTypes
  import opened Execution
  import opened Overlay
  import opened Spending

  class DeltaState {
    var keyImages: map<KeyImage, Height>
    var globalAmounts: map<Amount, seq<Pushed>>
    var spentOutputs: seq<(Amount, nat)>
    const blockHeight: Height
    const unlockTimestamp: nat
    const parent: View // the state below does not change while the overlay is in use

    constructor (blockHeight: Height, unlockTimestamp: nat, parent: View)
      ensures Content() == EMPTY_DELTA && Valid()
      ensures this.blockHeight == blockHeight && this.unlockTimestamp == unlockTimestamp && this.parent == parent
    {
      keyImages, globalAmounts, spentOutputs := map[], map[], [];
      this.blockHeight, this.unlockTimestamp, this.parent := blockHeight, unlockTimestamp, parent;
    }

    function Content(): Delta
      reads this
    {
      Delta(keyImages, globalAmounts, spentOutputs)
    }

    /** Pushing is the only change made to the amounts, so none is listed with nothing pushed. */
    ghost predicate Valid()
      reads this
    {
      forall a <- globalAmounts :: globalAmounts[a] != []
    }

    function AsView(): View
      reads this
    {
      Over(Content(), blockHeight, parent)
    }

    /** False when the key image is there already: the invariant of the source fires. */
    method StoreKeyImage(ki: KeyImage, height: Height) returns (ok: bool)
      modifies this`keyImages
      ensures ok == (ki !in old(keyImages))
      ensures keyImages == if ok then old(keyImages)[ki := height] else old(keyImages)
    {
      ok := ki !in keyImages;
      if ok {
        keyImages := keyImages[ki := height];
      }
    }

    method PushAmountOutput(amount: Amount, unlockTime: nat, key: PublicKey) returns (index: nat)
      modifies this`globalAmounts
      ensures globalAmounts ==
              old(globalAmounts)[amount := Get(old(globalAmounts), amount) + [Pushed(unlockTime, key)]]
      ensures index == NextIndex(old(AsView()), amount)
    {
      var below := NextIndex(parent, amount);
      var pushed := Get(globalAmounts, amount) + [Pushed(unlockTime, key)];
      globalAmounts := globalAmounts[amount := pushed];
      index := below + |pushed| - 1;
    }

    method SpendOutput(amount: Amount, index: nat)
      modifies this`spentOutputs
      ensures spentOutputs == old(spentOutputs) + [(amount, index)]
    {
      spentOutputs := spentOutputs + [(amount, index)];
    }

    /** Hands everything collected here to the overlay below. False when a key image was there already. */
    method ApplyToDelta(below: DeltaState) returns (ok: bool)
      requires below != this && Valid()
      modifies below
      ensures ok == (keyImages.Keys !! old(below.keyImages).Keys)
      ensures ok ==> below.Content() == Merge(old(below.Content()), Content())
      ensures ok && old(below.Valid()) ==> below.Valid()
    {
      ok := ApplyKeyImages(below);
      if !ok {
        return;
      }
      ApplyAmounts(below);
      var i := 0;
      while i < |spentOutputs|
        invariant i <= |spentOutputs|
        invariant below.spentOutputs == old(below.spentOutputs) + spentOutputs[..i]
        invariant below.keyImages == old(below.keyImages) + keyImages
        invariant below.globalAmounts == Merge(old(below.Content()), Content()).amounts
      {
        below.SpendOutput(spentOutputs[i].0, spentOutputs[i].1);
        i := i + 1;
      }
    }

    method ApplyKeyImages(below: DeltaState) returns (ok: bool)
      requires below != this
      modifies below`keyImages
      ensures ok == (keyImages.Keys !! old(below.keyImages).Keys)
      ensures ok ==> below.keyImages == old(below.keyImages) + keyImages
    {
      var todo := keyImages.Keys;
      while todo != {}
        invariant todo <= keyImages.Keys && keyImages.Keys - todo !! old(below.keyImages).Keys
        invariant below.keyImages == old(below.keyImages) + (map ki | ki in keyImages && ki !in todo :: keyImages[ki])
      {
        var ki :| ki in todo;
        var stored := below.StoreKeyImage(ki, keyImages[ki]);
        if !stored {
          return false;
        }
        todo := todo - {ki};
      }
      assert (map ki | ki in keyImages && ki !in todo :: keyImages[ki]) == keyImages;
      return true;
    }

    method ApplyAmounts(below: DeltaState)
      requires below != this && Valid()
      modifies below`globalAmounts
      ensures below.globalAmounts == Merge(old(below.Content()), Content()).amounts
    {
      var todo := globalAmounts.Keys;
      ghost var was := below.globalAmounts;
      while todo != {}
        invariant todo <= globalAmounts.Keys
        invariant below.globalAmounts.Keys == was.Keys + (globalAmounts.Keys - todo)
        invariant forall a <- below.globalAmounts ::
                    below.globalAmounts[a] == if a in globalAmounts && a !in todo then Get(was, a) + globalAmounts[a]
                                              else Get(was, a)
      {
        var a :| a in todo;
        ApplyAmount(a, below);
        todo := todo - {a};
      }
      assert forall a <- below.globalAmounts :: Get(was, a) + [] == Get(was, a);
    }

    method ApplyAmount(a: Amount, below: DeltaState)
      requires below != this && Valid() && a in globalAmounts
      modifies below`globalAmounts
      ensures below.globalAmounts == old(below.globalAmounts)[a := Get(old(below.globalAmounts), a) + globalAmounts[a]]
    {
      ghost var was := below.globalAmounts;
      var pushed := globalAmounts[a];
      var i := 0;
      while i < |pushed|
        invariant i <= |pushed|
        invariant Get(below.globalAmounts, a) == Get(was, a) + pushed[..i]
        invariant i > 0 ==> a in below.globalAmounts
        invariant below.globalAmounts - {a} == was - {a}
      {
        assert Get(was, a) + pushed[..i + 1] == Get(was, a) + pushed[..i] + [pushed[i]];
        var _ := below.PushAmountOutput(a, pushed[i].unlockTime, pushed[i].key);
        i := i + 1;
      }
      assert pushed[..i] == pushed;
      SameMap(below.globalAmounts, was, a, Get(was, a) + pushed);
    }
  }

  lemma {:induction false} SameMap(m: map<Amount, seq<Pushed>>, was: map<Amount, seq<Pushed>>, a: Amount,
                                   s: seq<Pushed>)
    requires a in m && m[a] == s && m - {a} == was - {a}
    ensures m == was[a := s]
  {
    forall b | b != a
      ensures b in m <==> b in was
      ensures b in m ==> m[b] == was[b]
    {
      assert b in m <==> b in m - {a};
      assert b in was <==> b in was - {a};
      assert b in m ==> (m - {a})[b] == m[b];
    }
    assert m.Keys == was[a := s].Keys;
  }

  // ---- one transaction ----

  datatype Outcome = Redone | Failed(error: SpendError) | Duplicate

  ghost predicate DistinctKeyImages(inputs: seq<Input>) {
    forall i, j | 0 <= i < j < |inputs| && inputs[i].KeyInput? && inputs[j].KeyInput? ::
      inputs[i].keyImage != inputs[j].keyImage
  }

  /** The error that checking input k on top of v meets once the inputs before it have been accepted. */
  function InputError(v: View, tx: Transaction, k: nat, h: Height, ts: nat, ringValid: RingCheck): Option<SpendError>
    requires k < |tx.inputs|
  {
    if !tx.inputs[k].KeyInput? then None
    else if tx.inputs[k].keyImage in KeyImagesOf(tx.inputs[..k], h) then Some(KeyImageAlreadySpent)
    else
      match ResolveInput(v, tx.inputs[k], h, ts)
      case Bad(e) => Some(e)
      case Keys(keys) => if ringValid(tx, k, keys) then None else Some(InvalidSignatures)
  }

  function FirstError(v: View, tx: Transaction, n: nat, h: Height, ts: nat, ringValid: RingCheck): Option<SpendError>
    requires n <= |tx.inputs|
  {
    if n == 0 then None
    else
      match FirstError(v, tx, n - 1, h, ts, ringValid)
      case Some(e) => Some(e)
      case None => InputError(v, tx, n - 1, h, ts, ringValid)
  }

  lemma {:induction false} NothingBeyondNext(v: View, a: Amount, g: nat)
    requires g >= NextIndex(v, a)
    ensures ReadOutput(v, a, g) == None
  {
    if v.Over? {
      NothingBeyondNext(v.parent, a, NextIndex(v.parent, a));
    }
  }

  /** An overlay without outputs is transparent for reading outputs. */
  lemma {:induction false} ResolveThrough(d: Delta, h: Height, v: View, a: Amount, indexes: seq<nat>, at: Height,
                                          ts: nat)
    requires d.amounts == map[]
    ensures ResolveMembers(Over(d, h, v), a, indexes, at, ts) == ResolveMembers(v, a, indexes, at, ts)
  {
    if indexes != [] {
      var n := |indexes| - 1;
      ResolveThrough(d, h, v, a, indexes[..n], at, ts);
      if indexes[n] >= NextIndex(v, a) {
        NothingBeyondNext(v, a, indexes[n]);
      }
    }
  }

  lemma {:induction false} NoKeyImageTwice(inputs: seq<Input>, h: Height, n: nat)
    requires n < |inputs| && inputs[n].KeyInput? && inputs[n].keyImage in KeyImagesOf(inputs[..n], h)
    ensures !DistinctKeyImages(inputs)
  {
    KeyImagesMember(inputs[..n], h, inputs[n].keyImage);
  }

  /** Executes a transaction in an overlay of its own and hands the result to deltaState. Without signature
      checking nothing can fail but the invariants of the two overlays. */
  method RedoTransaction(tx: Transaction, deltaState: DeltaState, checkSigs: bool, ringValid: RingCheck)
    returns (outcome: Outcome, indices: seq<nat>)
    requires deltaState.Valid()
    modifies deltaState
    ensures outcome.Redone? ==>
              && deltaState.Valid()
              && deltaState.Content() == Merge(old(deltaState.Content()), TxDelta(tx, deltaState.blockHeight))
              && indices == OutputIndices(old(deltaState.AsView()), tx.unlockTime, tx.outputs)
    ensures outcome.Failed? ==> unchanged(deltaState)
    ensures !checkSigs ==>
              outcome == if DistinctKeyImages(tx.inputs)
                            && KeyImagesOf(tx.inputs, deltaState.blockHeight).Keys !! old(deltaState.keyImages).Keys
                         then Redone else Duplicate
    ensures checkSigs ==>
              outcome == match FirstError(old(deltaState.AsView()), tx, |tx.inputs|, deltaState.blockHeight,
                                          deltaState.unlockTimestamp, ringValid)
                         case None => Redone
                         case Some(e) => Failed(e)
  {
    indices := [];
    var h, ts := deltaState.blockHeight, deltaState.unlockTimestamp;
    var v := deltaState.AsView();
    var txDelta := new DeltaState(h, ts, v);
    var i := 0;
    while i < |tx.inputs|
      invariant i <= |tx.inputs|
      invariant unchanged(deltaState)
      invariant txDelta.Content() == Delta(KeyImagesOf(tx.inputs[..i], h), map[], SpendsOf(tx.inputs[..i]))
      invariant DistinctKeyImages(tx.inputs[..i])
      invariant checkSigs ==> FirstError(v, tx, i, h, ts, ringValid) == None
      invariant checkSigs ==> forall ki <- KeyImagesOf(tx.inputs[..i], h) :: ReadKeyImage(v, ki) == None
    {
      var input := tx.inputs[i];
      assert tx.inputs[..i + 1][..i] == tx.inputs[..i];
      if input.KeyInput? {
        if checkSigs {
          ghost var expected := InputError(v, tx, i, h, ts, ringValid);
          if ReadKeyImage(txDelta.AsView(), input.keyImage).Some? {
            assert expected == Some(KeyImageAlreadySpent);
            LaterErrorsDoNotMatter(v, tx, i + 1, |tx.inputs|, h, ts, ringValid);
            return Failed(KeyImageAlreadySpent), [];
          }
          ResolveThrough(txDelta.Content(), h, v, input.amount, AbsoluteIndexes(input.outputIndexes), h, ts);
          var members := ResolveInput(txDelta.AsView(), input, h, ts);
          if members.Bad? {
            LaterErrorsDoNotMatter(v, tx, i + 1, |tx.inputs|, h, ts, ringValid);
            return Failed(members.error), [];
          }
          if !ringValid(tx, i, members.keys) {
            LaterErrorsDoNotMatter(v, tx, i + 1, |tx.inputs|, h, ts, ringValid);
            return Failed(InvalidSignatures), [];
          }
        }
        if |input.outputIndexes| == 1 {
          txDelta.SpendOutput(input.amount, input.outputIndexes[0]);
        }
        var stored := txDelta.StoreKeyImage(input.keyImage, h);
        if !stored {
          NoKeyImageTwice(tx.inputs, h, i);
          return Duplicate, [];
        }
        StillDistinct(tx.inputs, h, i);
      }
      i := i + 1;
    }
    assert tx.inputs[..i] == tx.inputs;
    indices := PushOutputs(tx, txDelta);
    AmountsOfNonEmpty(tx.unlockTime, tx.outputs);
    var applied := txDelta.ApplyToDelta(deltaState);
    outcome := if applied then Redone else Duplicate;
  }

  method PushOutputs(tx: Transaction, txDelta: DeltaState) returns (indices: seq<nat>)
    requires txDelta.globalAmounts == map[]
    modifies txDelta`globalAmounts
    ensures txDelta.globalAmounts == AmountsOf(tx.unlockTime, tx.outputs)
    ensures indices == OutputIndices(txDelta.parent, tx.unlockTime, tx.outputs)
  {
    indices := [];
    var j := 0;
    while j < |tx.outputs|
      invariant j <= |tx.outputs|
      invariant txDelta.globalAmounts == AmountsOf(tx.unlockTime, tx.outputs[..j])
      invariant indices == OutputIndices(txDelta.parent, tx.unlockTime, tx.outputs[..j])
    {
      assert tx.outputs[..j + 1][..j] == tx.outputs[..j];
      AmountsOfGet(tx.unlockTime, tx.outputs[..j], tx.outputs[j].amount);
      var index := txDelta.PushAmountOutput(tx.outputs[j].amount, tx.unlockTime, tx.outputs[j].key);
      indices := indices + [index];
      j := j + 1;
    }
    assert tx.outputs[..j] == tx.outputs;
  }

  lemma {:induction false} AmountsOfNonEmpty(unlockTime: nat, outputs: seq<Output>)
    ensures forall a <- AmountsOf(unlockTime, outputs) :: AmountsOf(unlockTime, outputs)[a] != []
  {
    if outputs != [] {
      AmountsOfNonEmpty(unlockTime, outputs[..|outputs| - 1]);
    }
  }

  lemma {:induction false} LaterErrorsDoNotMatter(v: View, tx: Transaction, n: nat, m: nat, h: Height, ts: nat,
                                                  ringValid: RingCheck)
    requires n <= m <= |tx.inputs| && FirstError(v, tx, n, h, ts, ringValid).Some?
    ensures FirstError(v, tx, m, h, ts, ringValid) == FirstError(v, tx, n, h, ts, ringValid)
    decreases m - n
  {
    if n < m {
      LaterErrorsDoNotMatter(v, tx, n, m - 1, h, ts, ringValid);
    }
  }

  lemma {:induction false} StillDistinct(inputs: seq<Input>, h: Height, n: nat)
    requires n < |inputs| && inputs[n].KeyInput? && DistinctKeyImages(inputs[..n])
    requires inputs[n].keyImage !in KeyImagesOf(inputs[..n], h)
    ensures DistinctKeyImages(inputs[..n + 1])
  {
    KeyImagesMember(inputs[..n], h, inputs[n].keyImage);
    assert forall i | 0 <= i < n :: inputs[..n + 1][i] == inputs[..n][i];
  }
}
