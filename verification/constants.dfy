// Sizes, limits and sentinels of the market and loan accounts (state/constants.rs).

module Constants {
  /** A `last_valid_slot` of 0 means the order never expires. */
  const NO_EXPIRATION_LAST_VALID_SLOT: nat := 0

  const MARKET_FIXED_SIZE: nat := 736
  const GLOBAL_FIXED_SIZE: nat := 96
  const MARKET_LOANS_FIXED_SIZE: nat := 72

  const GLOBAL_BLOCK_SIZE: nat := 64
  const MARKET_BLOCK_SIZE: nat := 112
  const MARKET_LOAN_BLOCK_SIZE: nat := 96

  /** Bytes a red-black tree node adds to its payload (the hypertree crate's constant). */
  const RBTREE_OVERHEAD_BYTES: nat := 16

  const MARKET_BLOCK_PAYLOAD_SIZE: int := MARKET_BLOCK_SIZE - RBTREE_OVERHEAD_BYTES
  const GLOBAL_BLOCK_PAYLOAD_SIZE: int := GLOBAL_BLOCK_SIZE - RBTREE_OVERHEAD_BYTES
  const MARKET_LOAN_BLOCK_PAYLOAD_SIZE: int := MARKET_LOAN_BLOCK_SIZE - RBTREE_OVERHEAD_BYTES

  const RESTING_ORDER_SIZE: int := MARKET_BLOCK_PAYLOAD_SIZE
  const CLAIMED_SEAT_SIZE: int := MARKET_BLOCK_PAYLOAD_SIZE
  const GLOBAL_TRADER_SIZE: int := GLOBAL_BLOCK_PAYLOAD_SIZE
  const GLOBAL_DEPOSIT_SIZE: int := GLOBAL_BLOCK_PAYLOAD_SIZE
  const ACTIVE_LOAN_SIZE: int := MARKET_LOAN_BLOCK_PAYLOAD_SIZE

  const FREE_LIST_OVERHEAD: nat := 4
  const MARKET_FREE_LIST_BLOCK_SIZE: int := MARKET_BLOCK_SIZE - FREE_LIST_OVERHEAD
  const GLOBAL_FREE_LIST_BLOCK_SIZE: int := GLOBAL_BLOCK_SIZE - FREE_LIST_OVERHEAD
  const MARKET_LOAN_FREE_LIST_BLOCK_SIZE: int := MARKET_LOAN_BLOCK_SIZE - FREE_LIST_OVERHEAD

  /** Lamports deposited with every global order and paid to whoever removes it. */
  const GAS_DEPOSIT_LAMPORTS: nat := 5000

  /** Capacity of a market's loan ledger. */
  const MAX_ACTIVE_LOANS: nat := 5000

  /** The seat limit of a global account: 4 in test builds, 3000 otherwise. */
  function MaxGlobalSeats(testFeature: bool): (n: nat)
    ensures n == 4 <==> testFeature
    ensures n == 3000 <==> !testFeature
  {
    if testFeature then 4 else 3000
  }

  /** The sentinel index meaning "no block" (the hypertree crate's `NIL`, `u32::MAX`). */
  const NIL: nat := 0xFFFF_FFFF

  /** How every block splits into a tree header and a payload, or a free-list link and the rest. */
  lemma BlockLayout()
    ensures RESTING_ORDER_SIZE + RBTREE_OVERHEAD_BYTES == MARKET_BLOCK_SIZE
    ensures CLAIMED_SEAT_SIZE + RBTREE_OVERHEAD_BYTES == MARKET_BLOCK_SIZE
    ensures GLOBAL_TRADER_SIZE + RBTREE_OVERHEAD_BYTES == GLOBAL_BLOCK_SIZE
    ensures GLOBAL_DEPOSIT_SIZE + RBTREE_OVERHEAD_BYTES == GLOBAL_BLOCK_SIZE
    ensures ACTIVE_LOAN_SIZE + RBTREE_OVERHEAD_BYTES == MARKET_LOAN_BLOCK_SIZE
    ensures MARKET_FREE_LIST_BLOCK_SIZE + FREE_LIST_OVERHEAD == MARKET_BLOCK_SIZE
    ensures GLOBAL_FREE_LIST_BLOCK_SIZE + FREE_LIST_OVERHEAD == GLOBAL_BLOCK_SIZE
    ensures MARKET_LOAN_FREE_LIST_BLOCK_SIZE + FREE_LIST_OVERHEAD == MARKET_LOAN_BLOCK_SIZE
    ensures RESTING_ORDER_SIZE == 96 && ACTIVE_LOAN_SIZE == 80 && GLOBAL_TRADER_SIZE == 48
  {
  }
}
