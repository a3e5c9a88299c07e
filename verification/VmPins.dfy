/** GetVisibilityMapPins: pin the visibility map pages of all-visible heap buffers, unlocking the
    buffers for the I/O, while other backends may change the all-visible flags. */
module VmPins {
  import opened Base

  datatype Buffer = InvalidBuffer | Buffer(id: nat)

  /** A buffer variable that holds a pinned map page, if any. */
  class Pin {
    var mapBlock: int

    /** pg_tde_visibilitymap_pin_ok */
    predicate Ok(block: nat)
      reads this
    {
      mapBlock == block / HEAPBLOCKS_PER_PAGE
    }

    /** pg_tde_visibilitymap_pin */
    method Get(block: nat)
      modifies this
      ensures Ok(block)
    {
      mapBlock := block / HEAPBLOCKS_PER_PAGE;
    }
  }

  class Buffers {
    var locked: set<nat>
    var allVisible: set<nat>

    predicate NeedsPin(b: Buffer, block: nat, pin: Pin)
      reads this, pin
    {
      b.Buffer? && b.id in allVisible && !pin.Ok(block)
    }

    /** The flags of buffers that are not locked may change at any time. */
    method Interfere()
      modifies `allVisible
      ensures forall i :: i in locked ==> (i in allVisible <==> i in old(allVisible))
    {
      var others: set<nat> := *;
      allVisible := (allVisible * locked) + (others - locked);
    }

    method Unlock(b: Buffer)
      requires b.Buffer? && b.id in locked
      modifies `locked
      ensures locked == old(locked) - {b.id}
    {
      locked := locked - {b.id};
    }

    method LockExclusive(b: Buffer)
      requires b.Buffer? && b.id !in locked
      modifies `locked
      ensures locked == old(locked) + {b.id}
    {
      locked := locked + {b.id};
    }
  }

  /** One buffer and its block number and pin; the original swaps the three together. */
  datatype Side = Side(buffer: Buffer, block: nat, pin: Pin)

  /** Both buffers end up locked as they were, each all-visible one has its map page pinned, and the
      loop ends after three passes at most, whatever happens to the flags meanwhile. */
  method GetVisibilityMapPins(bufs: Buffers, side1: Side, side2: Side) returns (releasedLocks: bool, ghost passes: nat)
    requires side1.buffer.Buffer? || side2.buffer.Buffer?
    requires side1.buffer.Buffer? ==> side1.buffer.id in bufs.locked
    requires side2.buffer.Buffer? ==> side2.buffer.id in bufs.locked
    requires side1.buffer == side2.buffer ==> side1.block == side2.block
    requires side1.pin != side2.pin
    modifies bufs, side1.pin, side2.pin
    ensures bufs.locked == old(bufs.locked)
    ensures side1.buffer.Buffer? && side1.buffer.id in bufs.allVisible ==>
      side1.pin.mapBlock == side1.block / HEAPBLOCKS_PER_PAGE
    ensures side2.buffer.Buffer? && side2.buffer.id in bufs.allVisible ==>
      side2.pin.mapBlock == side2.block / HEAPBLOCKS_PER_PAGE
    ensures releasedLocks <==>
      old(bufs.NeedsPin(side1.buffer, side1.block, side1.pin)) ||
      old(bufs.NeedsPin(side2.buffer, side2.block, side2.pin))
    ensures !releasedLocks ==> unchanged(bufs) && unchanged(side1.pin) && unchanged(side2.pin)
    ensures passes <= 3
  {
    var a, b := side1, side2;
    if a.buffer.InvalidBuffer? || (b.buffer.Buffer? && a.block > b.block) {
      a, b := b, a;
    }
    releasedLocks, passes := false, 0;
    ghost var locked := bufs.locked;
    while true
      invariant bufs.locked == locked && passes <= 2
      invariant !releasedLocks ==> passes == 0 && unchanged(bufs) && unchanged(a.pin) && unchanged(b.pin)
      invariant passes >= 1 ==> releasedLocks
      invariant releasedLocks ==>
        old(bufs.NeedsPin(a.buffer, a.block, a.pin) || bufs.NeedsPin(b.buffer, b.block, b.pin))
      invariant passes >= 1 ==> b.buffer.Buffer? && a.buffer != b.buffer && (a.pin.Ok(a.block) || b.pin.Ok(b.block))
      invariant passes >= 2 ==> a.pin.Ok(a.block) && b.pin.Ok(b.block)
      decreases 2 - passes
    {
      var needA := bufs.NeedsPin(a.buffer, a.block, a.pin);
      var needB := bufs.NeedsPin(b.buffer, b.block, b.pin);
      passes := passes + 1;
      if !needA && !needB {
        break;
      }
      releasedLocks := true;
      bufs.Unlock(a.buffer);
      if b.buffer.Buffer? && b.buffer != a.buffer {
        bufs.Unlock(b.buffer);
      }
      if needA {
        a.pin.Get(a.block);
      }
      if needB {
        b.pin.Get(b.block);
      }
      bufs.Interfere();
      bufs.LockExclusive(a.buffer);
      if b.buffer.Buffer? && b.buffer != a.buffer {
        bufs.LockExclusive(b.buffer);
      }
      if b.buffer.InvalidBuffer? || a.buffer == b.buffer || (needA && needB) {
        break;
      }
    }
  }
}
