/** Transactions as the pool sees them, and the small wrappers shared by all modules. */
module Transactions {

  type Address = nat
  type Hash = nat

  datatype Option<+T> = None | Some(value: T)

  const MAX_UINT64: nat := 0xFFFF_FFFF_FFFF_FFFF

  type Uint64 = n: nat | n <= MAX_UINT64

  /** Nonces are 64-bit and stop one short of the largest, so that a successor always exists. */
  type Nonce = n: nat | n < MAX_UINT64 witness 0

  /** A transaction. The hash identifies it: values that agree on the hash are taken to be
      equal, so a collection keyed by hash is a set of these values. `cost` is
      value + gasPrice * gas. */
  datatype Tx = Tx(hash: Hash, sender: Address, nonce: Nonce, gasPrice: nat, gas: nat, cost: nat, size: nat)

  const TX_SLOT_SIZE := 32 * 1024

  /** Number of slots a transaction takes in the pool: the fewest of 32 KiB that hold it. */
  function NumSlots(tx: Tx): (n: nat)
    ensures tx.size <= 0x8000 * n && 0x8000 * n < tx.size + 0x8000
  {
    (tx.size + TX_SLOT_SIZE - 1) / TX_SLOT_SIZE
  }
}
