/** What a key input must satisfy to be spent on top of a state. */
module Spending {
  import opened ChainTypes
  import opened Overlay

  datatype SpendError = KeyImageAlreadySpent | UnknownType | InvalidGlobalIndex | SpendLockedOut | InvalidSignatures

  datatype Members = Keys(keys: seq<PublicKey>) | Bad(error: SpendError)

  /** check_ring_signature for input k of a transaction, given the keys its ring resolves to. */
  type RingCheck = (Transaction, nat, seq<PublicKey>) -> bool

  const LOCKED_TX_ALLOWED_DELTA_BLOCKS := 1
  const LOCKED_TX_ALLOWED_DELTA_SECONDS := 60

  /** An unlock moment is a height when it is below the largest height and a time otherwise; the sums are 32-bit. */
  predicate Unlocked(unlockTime: nat, height: Height, timestamp: nat) {
    if unlockTime < MAX_BLOCK_HEIGHT then (height + LOCKED_TX_ALLOWED_DELTA_BLOCKS) % UINT32_RANGE >= unlockTime
    else (timestamp + LOCKED_TX_ALLOWED_DELTA_SECONDS) % UINT32_RANGE >= unlockTime
  }

  /** The keys behind a list of global indexes, or the error of the first index that cannot be used. */
  function ResolveMembers(v: View, a: Amount, indexes: seq<nat>, h: Height, ts: nat): (r: Members)
    ensures r.Keys? ==> |r.keys| == |indexes|
  {
    if indexes == [] then Keys([])
    else
      var n := |indexes| - 1;
      match ResolveMembers(v, a, indexes[..n], h, ts)
      case Bad(e) => Bad(e)
      case Keys(keys) =>
        match ReadOutput(v, a, indexes[n])
        case None => Bad(InvalidGlobalIndex)
        case Some(e) => if Unlocked(e.unlockTime, h, ts) then Keys(keys + [e.key]) else Bad(SpendLockedOut)
  }

  /** Everything about a key input except its signature. */
  function ResolveInput(v: View, i: Input, h: Height, ts: nat): Members
    requires i.KeyInput?
  {
    if ReadKeyImage(v, i.keyImage).Some? then Bad(KeyImageAlreadySpent)
    else if i.outputIndexes == [] then Bad(UnknownType)
    else ResolveMembers(v, i.amount, AbsoluteIndexes(i.outputIndexes), h, ts)
  }

  lemma {:induction false} ResolvedMember(v: View, a: Amount, indexes: seq<nat>, h: Height, ts: nat, k: nat)
    requires ResolveMembers(v, a, indexes, h, ts).Keys? && k < |indexes|
    ensures var e := ReadOutput(v, a, indexes[k]);
            e.Some? && Unlocked(e.value.unlockTime, h, ts)
                && e.value.key == ResolveMembers(v, a, indexes, h, ts).keys[k]
  {
    if k < |indexes| - 1 {
      ResolvedMember(v, a, indexes[..|indexes| - 1], h, ts, k);
    }
  }
}
