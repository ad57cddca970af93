/** The values that the chain state, the memory pool and the block tree share. Hashes, keys, key images and
    signatures are opaque identifiers; only equality and, for hashes, the total order matter. */
module ChainTypes {
  type Hash = nat
  type KeyImage = nat
  type PublicKey = nat
  type Amount = nat
  type Height = nat

  const MAX_BLOCK_HEIGHT := 500000000 // a smaller unlock moment is a height
  const UINT32_RANGE := 0x1_0000_0000
  const UINT64_RANGE := 0x1_0000_0000_0000_0000
  const DUST_THRESHOLD := 1000000

  datatype Option<+T> = None | Some(value: T)

  datatype Input =
    | CoinbaseInput(blockIndex: Height)
    | KeyInput(amount: Amount, outputIndexes: seq<nat>, keyImage: KeyImage)

  datatype Output = Output(amount: Amount, key: PublicKey)

  datatype Transaction = Transaction(
    hash: Hash, unlockTime: nat, inputs: seq<Input>, outputs: seq<Output>, signatures: seq<seq<nat>>)

  /** Ring members are stored as differences; the sums are taken in 32-bit arithmetic. */
  function AbsoluteIndexes(relative: seq<nat>): (r: seq<nat>)
    ensures |r| == |relative|
  {
    if relative == [] then []
    else
      var n := |relative| - 1;
      var before := AbsoluteIndexes(relative[..n]);
      before + [if n == 0 then relative[0] else (before[n - 1] + relative[n]) % UINT32_RANGE]
  }
}
