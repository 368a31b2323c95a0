/** A boot whose reserved table is too small: what no entry was found for is offered twice. */
module BootExample {
  import opened Regions
  import opened Sweep
  import opened BootMemory
  import opened FreeMemory
  import opened Untypeds

  /** One piece of memory, none of it reserved. */
  lemma OnePiece()
    ensures ClippedAll([Region(1, 9)], 0, 16) == [Region(1, 9)]
    ensures Pieces([Region(1, 9)], [], [Region(1, 9)])
  {
    assert Clipped(Region(1, 9), 0, 16) == Region(1, 9);
    assert Inside(Region(1, 9), [Region(1, 9)][0]);
  }

  lemma RoomForOne()
    ensures HasRoom([Region(1, 9)], [], 1, 0)
  {
    assert Inside(Region(8, 9), [Region(1, 9)][0]);
    assert Room([Region(1, 9)], [], 8, 1, 0);
  }

  lemma NothingBefore()
    ensures Prepared([], 0, [Region(1, 9)], [], Region(0, 0)) && Checked([Region(1, 9)], [])
  {
  }

  lemma CoversOne(r: Region, x: int)
    ensures Covers([r], x) <==> Has(r, x)
  {
    assert Has(r, x) <==> Has([r][0], x);
  }

  /** Every address but that of the block is in the list, is below the top, and is not in the table. */
  lemma TakenForDevice(list: seq<Region>, start: nat)
    requires forall x :: Covers(list, x) <==> 1 <= x < 9 && x != start
    ensures !Known([], 16, Region(0, 0), list, |list|, 0)
  {
    var x := if start == 1 then 2 else 1;
    assert list[..|list|] == list;
    assert Physical(x, 0) == x;
    assert IsMapped(Region(0, 0), list, |list|, 0, x) && IsDevice([], 16, 0, x);
  }

  /** Booting succeeds, with a table that has no room for an entry. */
  method Boot() returns (mem: Memory, store: CapStore, start: nat, ghost list: seq<Region>)
    ensures mem.Valid() && mem.Table() == []
    ensures forall x :: Covers(list, x) <==> Covers([Region(1, 9)], x) && x != start
    ensures NoOverlap(store.offered) <==> Known([], 16, Region(0, 0), list, |list|, 0)
    ensures !mem.lost ==> NoOverlap(store.offered)
  {
    mem := new Memory(1, 3, 0);
    store := new CapStore(0, 47, 8, 8, 0, 16);
    var availReg := new Region[1](_ => Region(0, 0));
    OnePiece();
    RoomForOne();
    NothingBefore();
    ghost var free;
    var ok;
    assert store.Inside(Virtual(Region(0, 0), mem.offset));
    ok, start, free, list := InitMemory(mem, store, [Region(1, 9)], [], availReg, 16, 1, 0, 16, Region(0, 0));
    PiecesUnique([Region(1, 9)], [], free, [Region(1, 9)]);
    assert ok;
    assert mem.Table() == [];
  }

  /** So its offers overlap. */
  method LostEntryOverlaps() returns (mem: Memory, store: CapStore)
    ensures mem.lost && !NoOverlap(store.offered)
  {
    var start;
    ghost var list;
    mem, store, start, list := Boot();
    forall x ensures Covers(list, x) <==> 1 <= x < 9 && x != start {
      CoversOne(Region(1, 9), x);
    }
    TakenForDevice(list, start);
  }
}
