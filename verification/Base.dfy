/** What several parts of the access method share. */
module Base {
  datatype Option<T> = None | Some(value: T)

  const INVALID_XID: nat := 0
  const FROZEN_XID: nat := 2
  const FIRST_NORMAL_XID: nat := 3
  const INVALID_MULTI: nat := 0

  const BLCKSZ := 8192
  const SIZE_OF_PAGE_HEADER: nat := 24
  const SIZE_OF_ITEM_ID: nat := 4

  /** MaxHeapTuplesPerPage */
  const MAX_TUPLES_PER_PAGE: nat := 291

  /** Heap blocks that one page of the visibility map is for. */
  const HEAPBLOCKS_PER_PAGE: nat := 32672

  /** The flags of a line pointer. */
  datatype LpState = LpUnused | LpNormal | LpRedirect | LpDead

  datatype Tid = Tid(block: nat, off: nat)
  {
    /** ItemPointerCompare(this, u) < 0 */
    predicate Before(u: Tid) {
      block < u.block || (block == u.block && off < u.off)
    }
  }
}
