/** Untyped capabilities for all memory the kernel does not keep. */
module Untypeds {
  import opened Bits
  import opened WordBits
  import opened Regions
  import opened Chunks
  import opened BootMemory
  import opened FreeMemory
  import opened Sweep

  datatype Untyped = Untyped(chunk: Chunk, device: bool)

  // ---- What becomes of the chunks that are offered -----------------------------------

  /** The offers large enough to be retyped into objects. */
  function Useful(offers: seq<Untyped>, minBits: nat): seq<Untyped> {
    if offers == [] then []
    else
      var last := offers[|offers| - 1];
      Useful(offers[..|offers| - 1], minBits) + (if last.chunk.bits >= minBits then [last] else [])
  }

  /** Of those, as many as the list holds. */
  function Granted(offers: seq<Untyped>, minBits: nat, listSize: nat): seq<Untyped> {
    var us := Useful(offers, minBits);
    if |us| <= listSize then us else us[..listSize]
  }

  /** The chunks of a region, all of one kind. */
  function Marked(cs: seq<Chunk>, device: bool): (us: seq<Untyped>)
    ensures |us| == |cs| && forall k :: 0 <= k < |cs| ==> us[k] == Untyped(cs[k], device)
  {
    seq(|cs|, k requires 0 <= k < |cs| => Untyped(cs[k], device))
  }

  /** x is in one of the chunks. */
  predicate InOffers(us: seq<Untyped>, x: int) {
    exists k :: 0 <= k < |us| && HasChunk(us[k].chunk, x)
  }

  /** No address is in two of the chunks. */
  ghost predicate NoOverlap(us: seq<Untyped>) {
    forall i, j, x :: 0 <= i < j < |us| && Word(x) ==> !(HasChunk(us[i].chunk, x) && HasChunk(us[j].chunk, x))
  }

  lemma OneMoreUseful(offers: seq<Untyped>, u: Untyped, minBits: nat)
    ensures Useful(offers + [u], minBits) == Useful(offers, minBits) + (if u.chunk.bits >= minBits then [u] else [])
  {
    assert (offers + [u])[..|offers|] == offers;
  }

  lemma OneMoreGranted(offers: seq<Untyped>, u: Untyped, minBits: nat, listSize: nat)
    ensures var gs := Granted(offers, minBits, listSize);
      Granted(offers + [u], minBits, listSize)
        == if u.chunk.bits >= minBits && |gs| < listSize then gs + [u] else gs
  {
    OneMoreUseful(offers, u, minBits);
  }

  lemma {:induction false} UsefulIsOffered(offers: seq<Untyped>, minBits: nat, k: nat) returns (j: nat)
    requires k < |Useful(offers, minBits)|
    ensures j < |offers| && offers[j] == Useful(offers, minBits)[k]
  {
    var init := offers[..|offers| - 1];
    if k < |Useful(init, minBits)| {
      j := UsefulIsOffered(init, minBits, k);
    } else {
      j := |init|;
    }
  }

  lemma {:induction false} UsefulApart(offers: seq<Untyped>, minBits: nat)
    requires NoOverlap(offers)
    ensures NoOverlap(Useful(offers, minBits))
    decreases |offers|
  {
    if offers != [] {
      var init, last, n := offers[..|offers| - 1], offers[|offers| - 1], |offers| - 1;
      assert forall i :: 0 <= i < n ==> init[i] == offers[i];
      UsefulApart(init, minBits);
      var us := Useful(init, minBits);
      forall i, x | 0 <= i < |us| && Word(x) ensures !(HasChunk(us[i].chunk, x) && HasChunk(last.chunk, x)) {
        var j := UsefulIsOffered(init, minBits, i);
        assert offers[j] == us[i] && j < n;
      }
    }
  }

  /** A region and the chunks it was cut into. */
  datatype Cut = Cut(region: Region, chunks: seq<Chunk>, device: bool)

  predicate GoodCut(c: Cut, maxBits: nat) {
    && Word(c.region.start) && Word(c.region.end)
    && Cuts(c.chunks, c.region.start, Dist(c.region.end, c.region.start), c.region.end, 0, maxBits)
  }

  // ---- Where capabilities go -----------------------------------------------------------

  /** A list in the boot information and slots in the root CNode. */
  class CapStore {
    const minBits: nat         // seL4_MinUntypedBits
    const maxBits: nat         // seL4_MaxUntypedBits
    const listSize: nat        // CONFIG_MAX_NUM_BOOTINFO_UNTYPED_CAPS
    const slots: nat           // free slots of the root CNode
    const windowBase: nat      // PPTR_BASE
    const windowTop: nat       // PPTR_TOP
    var caps: seq<Untyped>
    ghost var offered: seq<Untyped>
    ghost var cuts: seq<Cut>   // the regions that were offered whole

    constructor (minUntypedBits: nat, maxUntypedBits: nat, maxUntyped: nat, freeSlots: nat, base: nat, top: nat)
      requires maxUntypedBits <= 63
      ensures Valid() && offered == [] && cuts == [] && caps == []
      ensures minBits == minUntypedBits && maxBits == maxUntypedBits && listSize == maxUntyped && slots == freeSlots
      ensures windowBase == base && windowTop == top
    {
      minBits, maxBits, listSize, slots := minUntypedBits, maxUntypedBits, maxUntyped, freeSlots;
      windowBase, windowTop, caps, offered, cuts := base, top, [], [], [];
    }

    /** The capabilities are those of the useful offers, as far as the list goes. */
    ghost predicate Valid()
      reads this
    {
      maxBits <= 63 && caps == Granted(offered, minBits, listSize)
    }

    /** All offers are chunks of regions that were cut completely. */
    ghost predicate AllCut()
      reads this
    {
      offered == OffersOf(cuts) && AllGood(cuts, maxBits)
    }

    predicate InWindow(pptr: nat) {
      windowBase <= pptr < windowTop
    }

    /** The region is empty, or inside the window of memory the kernel maps. */
    predicate Inside(reg: Region) {
      reg.start == reg.end || windowBase <= reg.start <= reg.end <= windowTop
    }

    /** `provide_untyped_cap` */
    method Provide(device: bool, c: Chunk) returns (ok: bool)
      modifies this`caps
      ensures ok <==>
        && minBits <= c.bits <= maxBits && Aligned(c.start, c.bits)
        && (device || (InWindow(c.start) && InWindow(c.start + Pow2(c.bits) - 1)))
        && (old(|caps|) < listSize ==> old(|caps|) < slots)
      ensures caps == if ok && old(|caps|) < listSize then old(caps) + [Untyped(c, device)] else old(caps)
    {
      if c.bits > maxBits || c.bits < minBits {
        return false;
      }
      if Low(c.start, c.bits) != 0 {
        return false;
      }
      if !device && !InWindow(c.start) {
        return false;
      }
      if !device && !InWindow(c.start + Pow2(c.bits) - 1) {
        return false;
      }
      if |caps| < listSize {
        if |caps| >= slots {
          return false;
        }
        caps := caps + [Untyped(c, device)];
      }
      return true;
    }

    /** A chunk is offered if it is large enough to be of use. */
    method OfferChunk(device: bool, c: Chunk) returns (ok: bool)
      requires Valid() && c.bits <= maxBits && Aligned(c.start, c.bits)
      modifies this`caps, this`offered
      ensures ok ==> Valid() && offered == old(offered) + [Untyped(c, device)]
      ensures listSize <= slots && (device || Inside(Region(c.start, c.start + Pow2(c.bits)))) ==> ok
    {
      ok := true;
      OneMoreGranted(offered, Untyped(c, device), minBits, listSize);
      if c.bits >= minBits {
        ok := Provide(device, c);
      }
      offered := offered + [Untyped(c, device)];
    }
  }

  // ---- One region ------------------------------------------------------------------------

  /** The size of the next chunk. */
  method ChunkBits(start: nat, length: nat, maxBits: nat) returns (bits: nat)
    requires Word(start) && 0 < length && Word(length)
    ensures Largest(start, length, bits, maxBits)
  {
    var zeros := Clz64(length);
    bits := 63 - zeros;
    ghost var top := bits;
    if bits > maxBits {
      bits := maxBits;
    }
    ghost var capped := bits;
    if start != 0 {
      var alignBits := Ctz64(start);
      if bits > alignBits {
        bits := alignBits;
      }
      AlignedDown(start, alignBits, bits);
    } else {
      ZeroAligned(bits);
    }
    Pow2Monotone(bits, top);
    if bits == capped && bits < maxBits { Pow2Monotone(top + 1, bits + 1); }
  }

  lemma NextLength(start: nat, bits: nat, end: nat)
    requires Word(start) && Word(end) && start != end
    requires bits <= 63 && Aligned(start, bits) && Pow2(bits) <= Dist(end, start)
    ensures Word(After(start, bits)) && Dist(end, After(start, bits)) + Pow2(bits) == Dist(end, start)
  {
    AlignedBelowTop(start, bits);
  }

  /** The next chunk of what is left, and where the one after it begins. */
  method NextChunk(start: nat, end: nat, maxBits: nat) returns (c: Chunk, next: nat)
    requires Word(start) && Word(end) && start != end && maxBits <= 63
    ensures c.start == start && Largest(start, Dist(end, start), c.bits, maxBits)
    ensures Word(next) && next == After(start, c.bits) && Dist(end, next) + Pow2(c.bits) == Dist(end, start)
    ensures start <= end ==> next == start + Pow2(c.bits) <= end
  {
    var bits := ChunkBits(start, Dist(end, start), maxBits);
    NextLength(start, bits, end);
    c, next := Chunk(start, bits), Wrap(start + Pow2(bits));
  }

  lemma CutsAppend(cs: seq<Chunk>, c: Chunk, start: nat, length: nat, rest: nat, left: nat, maxBits: nat)
    requires Word(c.start) && Largest(c.start, left + Pow2(c.bits), c.bits, maxBits) && rest == After(c.start, c.bits)
    requires Cuts(cs, start, length, c.start, left + Pow2(c.bits), maxBits)
    ensures Cuts(cs + [c], start, length, rest, left, maxBits)
  {
    assert (cs + [c])[..|cs|] == cs;
  }

  /** `create_untypeds_for_region`: all of the region is cut and offered. */
  method CreateUntypedsForRegion(store: CapStore, device: bool, reg: Region) returns (ok: bool, ghost cs: seq<Chunk>)
    requires store.Valid() && Word(reg.start) && Word(reg.end)
    modifies store`caps, store`offered
    ensures ok ==> store.Valid() && store.offered == old(store.offered) + Marked(cs, device)
    ensures ok ==> Cuts(cs, reg.start, Dist(reg.end, reg.start), reg.end, 0, store.maxBits)
    ensures store.listSize <= store.slots && (device || store.Inside(reg)) ==> ok
  {
    var start: nat := reg.start;
    cs := [];
    while start != reg.end
      invariant store.Valid() && store.offered == old(store.offered) + Marked(cs, device)
      invariant Word(start)
      invariant Cuts(cs, reg.start, Dist(reg.end, reg.start), start, Dist(reg.end, start), store.maxBits)
      invariant reg.start <= reg.end ==> reg.start <= start <= reg.end
      decreases Dist(reg.end, start)
    {
      var c, next := NextChunk(start, reg.end, store.maxBits);
      var provided := store.OfferChunk(device, c);
      if !provided {
        return false, cs;
      }
      CutsAppend(cs, c, reg.start, Dist(reg.end, reg.start), next, Dist(reg.end, next), store.maxBits);
      assert Marked(cs + [c], device) == Marked(cs, device) + [Untyped(c, device)];
      cs, start := cs + [c], next;
    }
    return true, cs;
  }

  // ---- Tiling ------------------------------------------------------------------------------

  predicate CoversWrapped(rs: seq<Region>, x: int) {
    exists i :: 0 <= i < |rs| && HasWrapped(rs[i], x)
  }

  /** No two of the regions share an address. */
  ghost predicate RegionsApart(rs: seq<Region>) {
    forall i, j, x :: 0 <= i < j < |rs| && HasWrapped(rs[i], x) ==> !HasWrapped(rs[j], x)
  }

  /** The offers are cut from the regions: they cover the same addresses, and are apart exactly if the regions are. */
  ghost predicate Tiles(us: seq<Untyped>, rs: seq<Region>) {
    var tiles :=
      && (forall x :: Word(x) ==> (InOffers(us, x) <==> CoversWrapped(rs, x)))
      && (NoOverlap(us) <==> RegionsApart(rs));
    tiles
  }

  /** One more region leaves them apart exactly if it is apart from them. */
  lemma ApartAppend(rs: seq<Region>, r: Region)
    ensures RegionsApart(rs + [r]) <==> RegionsApart(rs) && forall x :: HasWrapped(r, x) ==> !CoversWrapped(rs, x)
  {
    var ss := rs + [r];
    if RegionsApart(ss) {
      forall i, j, x | 0 <= i < j < |rs| && HasWrapped(rs[i], x) ensures !HasWrapped(rs[j], x) {
        assert HasWrapped(ss[i], x) && rs[j] == ss[j];
      }
      forall i, x | 0 <= i < |rs| && HasWrapped(rs[i], x) ensures !HasWrapped(r, x) {
        assert HasWrapped(ss[i], x) && ss[|rs|] == r;
      }
    }
    if RegionsApart(rs) && forall x :: HasWrapped(r, x) ==> !CoversWrapped(rs, x) {
      forall i, j, x | 0 <= i < j < |ss| && HasWrapped(ss[i], x) ensures !HasWrapped(ss[j], x) {
        assert HasWrapped(rs[i], x);
      }
    }
  }

  lemma WrappedAppend(rs: seq<Region>, r: Region, x: int)
    ensures CoversWrapped(rs + [r], x) <==> CoversWrapped(rs, x) || HasWrapped(r, x)
  {
    var ss := rs + [r];
    if CoversWrapped(rs, x) {
      var k :| 0 <= k < |rs| && HasWrapped(rs[k], x);
      assert HasWrapped(ss[k], x);
    }
    if HasWrapped(r, x) {
      assert HasWrapped(ss[|rs|], x);
    }
  }

  lemma OffersAppend(us: seq<Untyped>, cs: seq<Chunk>, device: bool, x: int)
    ensures InOffers(us + Marked(cs, device), x) <==> InOffers(us, x) || InChunks(cs, x)
  {
    var all := us + Marked(cs, device);
    if InOffers(us, x) {
      var k :| 0 <= k < |us| && HasChunk(us[k].chunk, x);
      assert HasChunk(all[k].chunk, x);
    }
    if InChunks(cs, x) {
      var k :| 0 <= k < |cs| && HasChunk(cs[k], x);
      assert HasChunk(all[|us| + k].chunk, x);
    }
    if InOffers(all, x) {
      var k :| 0 <= k < |all| && HasChunk(all[k].chunk, x);
      if k < |us| {
        assert HasChunk(us[k].chunk, x);
      } else {
        assert HasChunk(cs[k - |us|], x);
      }
    }
  }

  /** The chunks of one more region overlap something exactly if the region does, or something did before. */
  lemma OneMoreApart(us: seq<Untyped>, cs: seq<Chunk>, device: bool, r: Region, maxBits: nat)
    requires Word(r.start) && Word(r.end) && maxBits <= 63
    requires Cuts(cs, r.start, Dist(r.end, r.start), r.end, 0, maxBits)
    ensures NoOverlap(us + Marked(cs, device)) <==>
      NoOverlap(us) && forall x :: HasWrapped(r, x) ==> !InOffers(us, x)
  {
    var all := us + Marked(cs, device);
    if NoOverlap(all) {
      forall i, j, x | 0 <= i < j < |us| && Word(x)
        ensures !(HasChunk(us[i].chunk, x) && HasChunk(us[j].chunk, x))
      {
        assert us[i] == all[i] && us[j] == all[j];
      }
      forall x | HasWrapped(r, x) ensures !InOffers(us, x) {
        CuttingTiles(cs, r, x, maxBits);
        var k :| 0 <= k < |cs| && HasChunk(cs[k], x);
        assert HasChunk(all[|us| + k].chunk, x);
        forall i | 0 <= i < |us| ensures !HasChunk(us[i].chunk, x) {
          assert us[i] == all[i];
        }
      }
    }
    if NoOverlap(us) && forall x :: HasWrapped(r, x) ==> !InOffers(us, x) {
      AddedApart(us, cs, device, r, maxBits);
    }
  }

  lemma AddedApart(us: seq<Untyped>, cs: seq<Chunk>, device: bool, r: Region, maxBits: nat)
    requires NoOverlap(us) && Word(r.start) && Word(r.end) && maxBits <= 63
    requires Cuts(cs, r.start, Dist(r.end, r.start), r.end, 0, maxBits)
    requires forall x :: HasWrapped(r, x) ==> !InOffers(us, x)
    ensures NoOverlap(us + Marked(cs, device))
  {
    var all := us + Marked(cs, device);
    forall i, j, x | 0 <= i < j < |all| && Word(x) ensures !(HasChunk(all[i].chunk, x) && HasChunk(all[j].chunk, x)) {
      if |us| <= i {
        CutsDisjoint(cs, r.start, Dist(r.end, r.start), r.end, 0, i - |us|, j - |us|, x, maxBits);
      } else if |us| <= j {
        CuttingTiles(cs, r, x, maxBits);
        if HasChunk(all[j].chunk, x) { assert InChunks(cs, x) by { assert HasChunk(cs[j - |us|], x); } }
        if HasChunk(all[i].chunk, x) { assert InOffers(us, x) by { assert HasChunk(us[i].chunk, x); } }
      }
    }
  }

  lemma OneMoreTiled(us: seq<Untyped>, cs: seq<Chunk>, device: bool, rs: seq<Region>, r: Region, maxBits: nat)
    requires Tiles(us, rs) && Word(r.start) && Word(r.end) && maxBits <= 63
    requires Cuts(cs, r.start, Dist(r.end, r.start), r.end, 0, maxBits)
    ensures Tiles(us + Marked(cs, device), rs + [r])
  {
    OneMoreApart(us, cs, device, r, maxBits);
    ApartAppend(rs, r);
    forall x | Word(x) ensures InOffers(us + Marked(cs, device), x) <==> CoversWrapped(rs + [r], x) {
      OffersAppend(us, cs, device, x);
      WrappedAppend(rs, r, x);
      CuttingTiles(cs, r, x, maxBits);
    }
  }

  /** The chunks of all cuts, and the regions they were cut from. */
  function OffersOf(cuts: seq<Cut>): seq<Untyped> {
    if cuts == [] then []
    else
      var last := cuts[|cuts| - 1];
      OffersOf(cuts[..|cuts| - 1]) + Marked(last.chunks, last.device)
  }

  function RegionsOf(cuts: seq<Cut>): (rs: seq<Region>)
    ensures |rs| == |cuts|
  {
    seq(|cuts|, k requires 0 <= k < |cuts| => cuts[k].region)
  }

  /** Which of the regions were offered as device memory. */
  function Flags(cuts: seq<Cut>): (fs: seq<bool>)
    ensures |fs| == |cuts|
  {
    seq(|cuts|, k requires 0 <= k < |cuts| => cuts[k].device)
  }

  /** From place n on, all flags are f. */
  predicate FlaggedFrom(flags: seq<bool>, n: nat, f: bool) {
    forall k :: n <= k < |flags| ==> flags[k] == f
  }

  predicate AllGood(cuts: seq<Cut>, maxBits: nat) {
    forall k :: 0 <= k < |cuts| ==> GoodCut(cuts[k], maxBits)
  }

  lemma OneMoreGood(cuts: seq<Cut>, c: Cut, maxBits: nat)
    requires AllGood(cuts, maxBits) && GoodCut(c, maxBits)
    ensures AllGood(cuts + [c], maxBits)
    ensures OffersOf(cuts + [c]) == OffersOf(cuts) + Marked(c.chunks, c.device)
    ensures RegionsOf(cuts + [c]) == RegionsOf(cuts) + [c.region]
  {
    assert (cuts + [c])[..|cuts|] == cuts;
  }

  lemma AllButOne(cuts: seq<Cut>, maxBits: nat)
    requires AllGood(cuts, maxBits) && cuts != []
    ensures AllGood(cuts[..|cuts| - 1], maxBits) && GoodCut(cuts[|cuts| - 1], maxBits)
    ensures cuts == cuts[..|cuts| - 1] + [cuts[|cuts| - 1]]
  {
  }

  lemma NothingTiled()
    ensures Tiles([], [])
  {
  }

  /** Together the chunks tile the regions. */
  lemma {:induction false} CutsTile(cuts: seq<Cut>, maxBits: nat)
    requires maxBits <= 63 && AllGood(cuts, maxBits)
    ensures Tiles(OffersOf(cuts), RegionsOf(cuts))
    decreases |cuts|
  {
    if cuts == [] {
      NothingTiled();
    } else {
      var init, c := cuts[..|cuts| - 1], cuts[|cuts| - 1];
      AllButOne(cuts, maxBits);
      CutsTile(init, maxBits);
      LastTiled(init, c, maxBits);
    }
  }

  lemma LastTiled(cuts: seq<Cut>, c: Cut, maxBits: nat)
    requires maxBits <= 63 && AllGood(cuts, maxBits) && GoodCut(c, maxBits)
    requires Tiles(OffersOf(cuts), RegionsOf(cuts))
    ensures Tiles(OffersOf(cuts + [c]), RegionsOf(cuts + [c]))
  {
    OneMoreGood(cuts, c, maxBits);
    OneMoreTiled(OffersOf(cuts), c.chunks, c.device, RegionsOf(cuts), c.region, maxBits);
  }

  /** Every offer is a chunk of one of the regions, aligned and of an untyped's size, and flagged as that region was. */
  lemma {:induction false} OfferInCut(cuts: seq<Cut>, maxBits: nat, k: nat) returns (j: nat)
    requires maxBits <= 63 && AllGood(cuts, maxBits) && k < |OffersOf(cuts)|
    ensures j < |cuts| && OffersOf(cuts)[k].device == cuts[j].device
    ensures forall x :: Word(x) && HasChunk(OffersOf(cuts)[k].chunk, x) ==> HasWrapped(cuts[j].region, x)
    ensures var c := OffersOf(cuts)[k].chunk; c.bits <= maxBits && Aligned(c.start, c.bits)
    decreases |cuts|
  {
    var init, c := cuts[..|cuts| - 1], cuts[|cuts| - 1];
    AllButOne(cuts, maxBits);
    if k < |OffersOf(init)| {
      j := OfferInCut(init, maxBits, k);
    } else {
      j := |init|;
      var i := k - |OffersOf(init)|;
      var d := Dist(c.region.end, c.region.start);
      CutFits(c.chunks, c.region.start, d, c.region.end, 0, maxBits, i);
      forall x | Word(x) && HasChunk(c.chunks[i], x) ensures HasWrapped(c.region, x) {
        assert InChunks(c.chunks, x);
        CuttingTiles(c.chunks, c.region, x, maxBits);
      }
    }
  }

  /** One more region. */
  method Offer(store: CapStore, device: bool, reg: Region) returns (ok: bool)
    requires store.Valid() && store.AllCut() && Word(reg.start) && Word(reg.end)
    modifies store
    ensures ok ==> store.Valid() && store.AllCut()
    ensures RegionsOf(store.cuts) == old(RegionsOf(store.cuts)) + [reg]
    ensures Flags(store.cuts) == old(Flags(store.cuts)) + [device]
    ensures store.listSize <= store.slots && (device || store.Inside(reg)) ==> ok
  {
    ghost var cs;
    ok, cs := CreateUntypedsForRegion(store, device, reg);
    ghost var cut := Cut(reg, cs, device);
    if ok { OneMoreGood(store.cuts, cut, store.maxBits); }
    assert RegionsOf(store.cuts + [cut]) == RegionsOf(store.cuts) + [reg];
    assert Flags(store.cuts + [cut]) == Flags(store.cuts) + [device];
    store.cuts := store.cuts + [cut];
  }

  // ---- All memory ------------------------------------------------------------------------------

  /** The kernel-virtual region of a physical one; it may go round the top. */
  function Virtual(p: Region, offset: nat): Region {
    Region(ToVirtual(p.start, offset), ToVirtual(p.end, offset))
  }

  /** The physical address of a kernel-virtual one. */
  function Physical(x: int, offset: nat): int {
    Dist(x, offset)
  }

  lemma VirtualHas(p: Region, offset: nat, x: int)
    requires Word(offset) && Word(x) && 0 <= p.start <= p.end && Word(p.end)
    ensures Word(Virtual(p, offset).start) && Word(Virtual(p, offset).end)
    ensures HasWrapped(Virtual(p, offset), x) <==> Has(p, Physical(x, offset))
  {
    assert ToVirtual(p.start, offset) == Wrap(p.start + offset);
    assert ToVirtual(p.end, offset) == Wrap(p.end + offset);
  }

  /** The table and the list are tidy, and the list leaves out the reusable part of the kernel image. */
  ghost predicate InPlace(table: seq<Region>, list: seq<Region>, offset: nat, image: Region) {
    && Separated(table) && InOrder(list)
    && forall x :: Covers(list, x) ==> !Has(image, Physical(x, offset))
  }

  /**
    What booting must have established for the capabilities to be apart: a tidy
    reserved table that knows of all free memory, of the root server's block and of
    the reusable part of the kernel image, none of which overlap.
   */
  ghost predicate Sound(table: seq<Region>, list: seq<Region>, offset: nat, image: Region, block: Region) {
    && InPlace(table, list, offset, image)
    && (forall x :: Covers(list, x) ==> Covers(table, Physical(x, offset)))
    && (forall y :: Has(image, y) ==> Covers(table, y))
    && (forall x :: Has(block, x) ==>
          Covers(table, Physical(x, offset)) && !Has(image, Physical(x, offset)) && !Covers(list, x))
  }

  // ---- Device memory: what the table leaves open ----------------------------------------------------

  /** The regions done are exactly the memory below `start` that is not in the table. */
  ghost predicate Gaps(table: seq<Region>, done: seq<Region>, offset: nat, start: int) {
    forall x :: Word(x) ==>
      (CoversWrapped(done, x) <==> Physical(x, offset) < start && !Covers(table, Physical(x, offset)))
  }

  /** And they are apart. */
  ghost predicate DeviceLaid(table: seq<Region>, done: seq<Region>, offset: nat, start: int) {
    var laid := RegionsApart(done) && Gaps(table, done, offset, start);
    laid
  }

  /** The regions offered are device memory, and all of it below `start`. */
  ghost predicate GapsOffered(table: seq<Region>, cuts: seq<Cut>, offset: nat, start: int) {
    var offered :=
      && FlaggedFrom(Flags(cuts), 0, true)
      && (Separated(table) ==> DeviceLaid(table, RegionsOf(cuts), offset, start));
    offered
  }

  /** Where the device memory before entry i ends. */
  function GapStart(table: seq<Region>, i: nat): int
    requires i <= |table|
  {
    if i == 0 then 0 else table[i - 1].end
  }

  /** Where device memory ends: at its top, or at the last entry if that is higher. */
  function DeviceEnd(table: seq<Region>, deviceTop: nat): int {
    var last := GapStart(table, |table|);
    if last < deviceTop then deviceTop else last
  }

  lemma GapOpen(table: seq<Region>, i: nat, end: int, y: int)
    requires Separated(table) && i <= |table| && (i < |table| ==> end == table[i].start)
    requires GapStart(table, i) <= y < end
    ensures !Covers(table, y)
  {
    forall k | 0 <= k < |table| ensures !Has(table[k], y) {
      if k < i - 1 { assert table[k].end < table[i - 1].start; }
      if i < k { assert table[i].end < table[k].start; }
    }
  }

  lemma NextGap(table: seq<Region>, done: seq<Region>, offset: nat, i: nat, end: int)
    requires Word(offset) && Separated(table) && i <= |table| && (i < |table| ==> end == table[i].start)
    requires 0 <= GapStart(table, i) < end && Word(end) && DeviceLaid(table, done, offset, GapStart(table, i))
    ensures DeviceLaid(table, done + [Virtual(Region(GapStart(table, i), end), offset)], offset, end)
  {
    var gap := Region(GapStart(table, i), end);
    var reg := Virtual(gap, offset);
    forall x | Word(x)
      ensures HasWrapped(reg, x) <==> Has(gap, Physical(x, offset))
      ensures Has(gap, Physical(x, offset)) ==> !Covers(table, Physical(x, offset))
      ensures CoversWrapped(done + [reg], x) <==> CoversWrapped(done, x) || HasWrapped(reg, x)
    {
      VirtualHas(gap, offset, x);
      if Has(gap, Physical(x, offset)) { GapOpen(table, i, end, Physical(x, offset)); }
      WrappedAppend(done, reg, x);
    }
    ApartAppend(done, reg);
  }

  /** What entry i covers is not device memory. */
  lemma PastEntry(table: seq<Region>, cuts: seq<Cut>, offset: nat, i: nat, reached: int)
    requires i < |table| && (Separated(table) ==> reached == table[i].start)
    requires GapsOffered(table, cuts, offset, reached)
    ensures GapsOffered(table, cuts, offset, table[i].end)
  {
    if Separated(table) {
      forall x | Word(x) && table[i].start <= Physical(x, offset) < table[i].end
        ensures Covers(table, Physical(x, offset))
      {
        assert Has(table[i], Physical(x, offset));
      }
    }
  }

  /** The first part of `create_untypeds`: everything below the top of device memory that is not reserved. */
  method OfferDeviceMemory(mem: Memory, store: CapStore, deviceTop: nat) returns (ok: bool)
    requires mem.Valid() && Word(mem.offset) && Word(deviceTop)
    requires store.Valid() && store.AllCut() && store.cuts == []
    modifies store
    ensures ok ==> store.Valid() && store.AllCut()
    ensures ok ==> GapsOffered(mem.Table(), store.cuts, mem.offset, DeviceEnd(mem.Table(), deviceTop))
    ensures store.listSize <= store.slots ==> ok
  {
    var start, i := 0, 0;
    ghost var table := mem.Table();
    NothingOffered(table, mem.offset);
    while i < mem.resvCount
      invariant 0 <= i <= mem.resvCount && start == GapStart(table, i) && 0 <= start
      invariant store.Valid() && store.AllCut() && GapsOffered(table, store.cuts, mem.offset, start)
    {
      ok := OfferBefore(mem, store, start, i);
      if !ok {
        return;
      }
      start := mem.reserved[i].end;
      i := i + 1;
    }
    if start < deviceTop {
      ok := OfferGap(mem, store, start, deviceTop, i);
    } else {
      ok := true;
    }
  }

  /** The gap before entry i, if there is one. */
  method OfferBefore(mem: Memory, store: CapStore, start: int, i: nat) returns (ok: bool)
    requires mem.Valid() && Word(mem.offset) && i < mem.resvCount && start == GapStart(mem.Table(), i) && 0 <= start
    requires store.Valid() && store.AllCut() && GapsOffered(mem.Table(), store.cuts, mem.offset, start)
    modifies store
    ensures ok ==> store.Valid() && store.AllCut()
    ensures ok ==> GapsOffered(mem.Table(), store.cuts, mem.offset, mem.reserved[i].end)
    ensures ok ==> 0 <= mem.reserved[i].end
    ensures store.listSize <= store.slots ==> ok
  {
    ghost var table := mem.Table();
    EntryInWords(mem, i);
    ok := true;
    if start < mem.reserved[i].start {
      ok := OfferGap(mem, store, start, mem.reserved[i].start, i);
    }
    if ok {
      PastEntry(table, store.cuts, mem.offset, i, if start < table[i].start then table[i].start else start);
    }
  }

  lemma NothingOffered(table: seq<Region>, offset: nat)
    requires Word(offset)
    ensures GapsOffered(table, [], offset, 0)
  {
  }

  lemma EntryInWords(mem: Memory, i: nat)
    requires mem.Valid() && i < mem.resvCount
    ensures 0 <= mem.reserved[i].start < mem.reserved[i].end < 0x1_0000_0000_0000_0000
    ensures Separated(mem.Table()) ==> GapStart(mem.Table(), i) <= mem.reserved[i].start
  {
    var r := mem.Table()[i];
    assert Has(mem.Table()[i], r.start) && Has(mem.Table()[i], r.end - 1);
    assert Covers(mem.Table(), r.start) && Covers(mem.Table(), r.end - 1);
  }

  /** The device memory before entry i of the table, or above the last one. */
  method OfferGap(mem: Memory, store: CapStore, start: int, end: int, i: nat) returns (ok: bool)
    requires mem.Valid() && Word(mem.offset) && i <= mem.resvCount && start == GapStart(mem.Table(), i)
    requires 0 <= start < end && Word(end) && (i < mem.resvCount ==> end == mem.reserved[i].start)
    requires store.Valid() && store.AllCut()
    modifies store
    ensures ok ==> store.Valid() && store.AllCut()
    ensures old(GapsOffered(mem.Table(), store.cuts, mem.offset, start)) ==>
      GapsOffered(mem.Table(), store.cuts, mem.offset, end)
    ensures store.listSize <= store.slots ==> ok
  {
    var gap := Region(start, end);
    ghost var table, done := mem.Table(), RegionsOf(store.cuts);
    if Separated(table) && DeviceLaid(table, done, mem.offset, start) { NextGap(table, done, mem.offset, i, end); }
    VirtualHas(gap, mem.offset, 0);
    ok := Offer(store, true, Virtual(gap, mem.offset));
  }

  // ---- Memory the kernel mapped -------------------------------------------------------------------

  /** Device memory: below its end, and not in the table. */
  predicate IsDevice(table: seq<Region>, deviceEnd: int, offset: nat, x: int) {
    Physical(x, offset) < deviceEnd && !Covers(table, Physical(x, offset))
  }

  /** The reusable part of the kernel image, and the first k free regions. */
  predicate IsMapped(image: Region, list: seq<Region>, k: nat, offset: nat, x: int)
    requires k <= |list|
  {
    Has(image, Physical(x, offset)) || Covers(list[..k], x)
  }

  /** What is to be offered once the first k free regions are done. */
  predicate ToOffer(
    table: seq<Region>, deviceEnd: int, image: Region, list: seq<Region>, k: nat, offset: nat, x: int)
    requires k <= |list|
  {
    IsDevice(table, deviceEnd, offset, x) || IsMapped(image, list, k, offset, x)
  }

  /** The regions done are exactly that. */
  ghost predicate Complete(
    table: seq<Region>, deviceEnd: int, image: Region, list: seq<Region>, k: nat, offset: nat, done: seq<Region>)
    requires k <= |list|
  {
    forall x :: Word(x) ==> (CoversWrapped(done, x) <==> ToOffer(table, deviceEnd, image, list, k, offset, x))
  }

  /** None of the mapped memory is taken for device memory. */
  ghost predicate Known(
    table: seq<Region>, deviceEnd: int, image: Region, list: seq<Region>, k: nat, offset: nat)
    requires k <= |list|
  {
    forall x :: Word(x) && IsMapped(image, list, k, offset, x) ==> !IsDevice(table, deviceEnd, offset, x)
  }

  /** The regions done are what is to be offered, and are apart exactly if the table knew what is mapped. */
  ghost predicate Laid(
    table: seq<Region>, deviceEnd: int, image: Region, list: seq<Region>, k: nat, offset: nat, done: seq<Region>)
    requires k <= |list|
  {
    var laid :=
      && Complete(table, deviceEnd, image, list, k, offset, done)
      && (RegionsApart(done) <==> Known(table, deviceEnd, image, list, k, offset));
    laid
  }

  lemma ImageNext(
    table: seq<Region>, list: seq<Region>, offset: nat, image: Region, done: seq<Region>, deviceEnd: int)
    requires Word(offset) && 0 <= image.start <= image.end && Word(image.end)
    requires DeviceLaid(table, done, offset, deviceEnd)
    ensures Laid(table, deviceEnd, image, list, 0, offset, done + [Virtual(image, offset)])
  {
    var reg := Virtual(image, offset);
    assert forall x :: !Covers(list[..0], x);
    forall x | Word(x)
      ensures HasWrapped(reg, x) <==> Has(image, Physical(x, offset))
      ensures CoversWrapped(done + [reg], x) <==> CoversWrapped(done, x) || HasWrapped(reg, x)
      ensures CoversWrapped(done, x) <==> IsDevice(table, deviceEnd, offset, x)
      ensures IsMapped(image, list, 0, offset, x) <==> Has(image, Physical(x, offset))
    {
      VirtualHas(image, offset, x);
      WrappedAppend(done, reg, x);
    }
    ApartAppend(done, reg);
  }

  lemma FreeNext(
    table: seq<Region>, list: seq<Region>, offset: nat, image: Region, done: seq<Region>, deviceEnd: int, k: nat)
    requires k < |list| && InWords(list) && InPlace(table, list, offset, image)
    requires Laid(table, deviceEnd, image, list, k, offset, done)
    ensures Laid(table, deviceEnd, image, list, k + 1, offset, done + [list[k]])
  {
    var reg := list[k];
    assert list[..k + 1] == list[..k] + [reg];
    forall x | Word(x)
      ensures HasWrapped(reg, x) <==> Has(reg, x)
      ensures Has(reg, x) ==> !IsMapped(image, list, k, offset, x)
      ensures IsMapped(image, list, k + 1, offset, x) <==> IsMapped(image, list, k, offset, x) || Has(reg, x)
      ensures CoversWrapped(done + [reg], x) <==> CoversWrapped(done, x) || HasWrapped(reg, x)
    {
      if Has(reg, x) {
        assert Has(list[k], x);
        assert Covers(list, x);
        EarlierApart(list, k, x);
      }
      CoversConcat(list[..k], [reg], x);
      assert Covers([reg], x) <==> Has([reg][0], x);
      WrappedAppend(done, reg, x);
    }
    ApartAppend(done, reg);
  }

  lemma EarlierApart(list: seq<Region>, k: nat, x: int)
    requires k < |list| && InOrder(list) && Has(list[k], x)
    ensures !Covers(list[..k], x)
  {
  }

  /** No chunk reaches into the block. */
  ghost predicate Avoids(us: seq<Untyped>, block: Region) {
    forall x :: Word(x) && Has(block, x) ==> !InOffers(us, x)
  }

  /** What holds of the offers holds of the capabilities among them. */
  lemma GrantedApart(us: seq<Untyped>, minBits: nat, listSize: nat, block: Region)
    ensures NoOverlap(us) ==> NoOverlap(Granted(us, minBits, listSize))
    ensures Avoids(us, block) ==> Avoids(Granted(us, minBits, listSize), block)
  {
    if NoOverlap(us) { UsefulApart(us, minBits); }
    var gs := Granted(us, minBits, listSize);
    if Avoids(us, block) {
      forall x | Word(x) && Has(block, x) ensures !InOffers(gs, x) {
        forall k | 0 <= k < |gs| ensures !HasChunk(gs[k].chunk, x) {
          var j := UsefulIsOffered(us, minBits, k);
          assert us[j] == gs[k];
        }
      }
    }
  }

  /** The last part of `create_untypeds`: every free region, whose place in the list is given up. */
  method OfferFreeMemory(mem: Memory, store: CapStore) returns (ok: bool)
    requires mem.Valid() && InWords(mem.freemem[..]) && store.Valid() && store.AllCut()
    modifies store, mem.freemem
    ensures mem.Valid() && mem.Table() == old(mem.Table())
    ensures ok ==> store.Valid() && store.AllCut()
    ensures ok ==> RegionsOf(store.cuts) == old(RegionsOf(store.cuts)) + old(mem.freemem[..])
    ensures ok ==> old(Flags(store.cuts)) <= Flags(store.cuts)
    ensures ok ==> FlaggedFrom(Flags(store.cuts), old(|store.cuts|), false)
    ensures ok ==> forall k :: 0 <= k < mem.freemem.Length ==> mem.freemem[k] == Region(0, 0)
    ensures
      (&& store.listSize <= store.slots
       && forall k :: 0 <= k < mem.freemem.Length ==> store.Inside(old(mem.freemem[k])))
      ==> ok
  {
    ghost var table, list, done, flags := mem.Table(), mem.freemem[..], RegionsOf(store.cuts), Flags(store.cuts);
    var i := 0;
    while i < mem.freemem.Length
      invariant 0 <= i <= mem.freemem.Length && mem.Valid() && mem.Table() == table
      invariant store.Valid() && store.AllCut() && RegionsOf(store.cuts) == done + list[..i]
      invariant flags <= Flags(store.cuts) && FlaggedFrom(Flags(store.cuts), |flags|, false)
      invariant forall k :: 0 <= k < i ==> mem.freemem[k] == Region(0, 0)
      invariant forall k :: i <= k < mem.freemem.Length ==> mem.freemem[k] == list[k]
    {
      var reg := mem.freemem[i];
      mem.freemem[i] := Region(0, 0);
      ok := Offer(store, false, reg);
      if !ok {
        return;
      }
      i := i + 1;
    }
    ok := true;
  }

  /** One free region after the other. */
  lemma TakeOneMore(done: seq<Region>, list: seq<Region>, k: nat)
    requires k < |list|
    ensures done + list[..k + 1] == done + list[..k] + [list[k]]
  {
  }

  lemma {:induction false} FreeLaid(
    table: seq<Region>, list: seq<Region>, offset: nat, image: Region, done: seq<Region>, deviceEnd: int, k: nat)
    requires k <= |list| && InWords(list) && InPlace(table, list, offset, image)
    requires Laid(table, deviceEnd, image, list, 0, offset, done)
    ensures Laid(table, deviceEnd, image, list, k, offset, done + list[..k])
  {
    if k == 0 {
      assert done + list[..0] == done;
    } else {
      var before := done + list[..k - 1];
      TakeOneMore(done, list, k - 1);
      FreeLaid(table, list, offset, image, done, deviceEnd, k - 1);
      FreeNext(table, list, offset, image, before, deviceEnd, k - 1);
    }
  }

  /** An address is in an offer exactly if it is to be offered. */
  ghost predicate Covered(
    us: seq<Untyped>, table: seq<Region>, deviceEnd: int, image: Region, list: seq<Region>, offset: nat)
  {
    forall x :: Word(x) ==> (InOffers(us, x) <==> ToOffer(table, deviceEnd, image, list, |list|, offset, x))
  }

  /** The regions done say so, and whether the offers are apart. */
  lemma OffersLaid(
    us: seq<Untyped>, done: seq<Region>, table: seq<Region>, deviceEnd: int, image: Region, list: seq<Region>,
    offset: nat)
    requires Tiles(us, done) && Laid(table, deviceEnd, image, list, |list|, offset, done)
    ensures Covered(us, table, deviceEnd, image, list, offset)
    ensures NoOverlap(us) <==> Known(table, deviceEnd, image, list, |list|, offset)
  {
  }

  /** All offers: those for the device memory and the image, and then those for the list. */
  lemma AllLaid(
    cuts: seq<Cut>, maxBits: nat, done: seq<Region>, table: seq<Region>, deviceEnd: int, image: Region,
    list: seq<Region>, offset: nat)
    requires maxBits <= 63 && AllGood(cuts, maxBits) && RegionsOf(cuts) == done + list
    requires InWords(list) && InPlace(table, list, offset, image)
    requires Laid(table, deviceEnd, image, list, 0, offset, done)
    ensures Covered(OffersOf(cuts), table, deviceEnd, image, list, offset)
    ensures NoOverlap(OffersOf(cuts)) <==> Known(table, deviceEnd, image, list, |list|, offset)
  {
    CutsTile(cuts, maxBits);
    FreeLaid(table, list, offset, image, done, deviceEnd, |list|);
    assert list[..|list|] == list;
    OffersLaid(OffersOf(cuts), done + list, table, deviceEnd, image, list, offset);
  }

  /** Chunks flagged as device memory hold device memory only, and all others mapped memory only. */
  ghost predicate FlagsRight(
    us: seq<Untyped>, table: seq<Region>, deviceEnd: int, image: Region, list: seq<Region>, offset: nat)
  {
    forall k, x :: 0 <= k < |us| && Word(x) && HasChunk(us[k].chunk, x) ==>
      if us[k].device then IsDevice(table, deviceEnd, offset, x) else IsMapped(image, list, |list|, offset, x)
  }

  /** The first n regions are the device memory, then come the image and the list. */
  lemma {:induction false} FlagsLaid(
    cuts: seq<Cut>, maxBits: nat, n: nat, table: seq<Region>, deviceEnd: int, image: Region, list: seq<Region>,
    offset: nat)
    requires maxBits <= 63 && AllGood(cuts, maxBits) && n <= |cuts|
    requires forall k :: 0 <= k < |cuts| ==> (Flags(cuts)[k] <==> k < n)
    requires Gaps(table, RegionsOf(cuts)[..n], offset, deviceEnd)
    requires RegionsOf(cuts)[n..] == [Virtual(image, offset)] + list
    requires Word(offset) && 0 <= image.start <= image.end && Word(image.end) && InWords(list)
    ensures FlagsRight(OffersOf(cuts), table, deviceEnd, image, list, offset)
  {
    var us := OffersOf(cuts);
    forall k, x | 0 <= k < |us| && Word(x) && HasChunk(us[k].chunk, x)
      ensures if us[k].device then IsDevice(table, deviceEnd, offset, x) else IsMapped(image, list, |list|, offset, x)
    {
      var j := OfferInCut(cuts, maxBits, k);
      assert Flags(cuts)[j] == cuts[j].device && RegionsOf(cuts)[j] == cuts[j].region;
      if j < n {
        assert HasWrapped(RegionsOf(cuts)[..n][j], x);
        assert CoversWrapped(RegionsOf(cuts)[..n], x);
      } else {
        assert RegionsOf(cuts)[n..][j - n] == cuts[j].region;
        LaterMapped(image, list, offset, j - n, x);
      }
    }
  }

  lemma {:induction false} OffersFlagged(
    cuts: seq<Cut>, maxBits: nat, gaps: seq<Region>, table: seq<Region>, deviceEnd: int, image: Region,
    list: seq<Region>, offset: nat)
    requires maxBits <= 63 && AllGood(cuts, maxBits)
    requires |RegionsOf(cuts)| >= |gaps| && RegionsOf(cuts) == gaps + [Virtual(image, offset)] + list
    requires DeviceLaid(table, gaps, offset, deviceEnd)
    requires FlaggedFrom(Flags(cuts)[..|gaps|], 0, true) && FlaggedFrom(Flags(cuts), |gaps|, false)
    requires Word(offset) && 0 <= image.start <= image.end && Word(image.end) && InWords(list)
    ensures FlagsRight(OffersOf(cuts), table, deviceEnd, image, list, offset)
  {
    var n := |gaps|;
    assert forall k :: 0 <= k < n ==> Flags(cuts)[k] == Flags(cuts)[..n][k];
    assert RegionsOf(cuts)[..n] == gaps && RegionsOf(cuts)[n..] == [Virtual(image, offset)] + list;
    FlagsLaid(cuts, maxBits, n, table, deviceEnd, image, list, offset);
  }

  /** The flags as one part after the other adds to them. */
  lemma FlagsSplit(gaps: seq<bool>, image: seq<bool>, all: seq<bool>)
    requires FlaggedFrom(gaps, 0, true) && image == gaps + [false] && image <= all && FlaggedFrom(all, |image|, false)
    ensures FlaggedFrom(all[..|gaps|], 0, true) && FlaggedFrom(all, |gaps|, false)
  {
    assert forall k :: 0 <= k < |image| ==> all[k] == image[k];
  }

  lemma {:induction false} LaterMapped(image: Region, list: seq<Region>, offset: nat, j: nat, x: int)
    requires Word(offset) && 0 <= image.start <= image.end && Word(image.end) && InWords(list)
    requires j <= |list| && Word(x) && HasWrapped(([Virtual(image, offset)] + list)[j], x)
    ensures IsMapped(image, list, |list|, offset, x)
  {
    assert list[..|list|] == list;
    if j == 0 {
      VirtualHas(image, offset, x);
    } else {
      assert Has(list[j - 1], x);
    }
  }

  /** What holds of each offer holds of each capability. */
  lemma {:induction false} GrantedFlags(
    us: seq<Untyped>, minBits: nat, listSize: nat, table: seq<Region>, deviceEnd: int, image: Region,
    list: seq<Region>, offset: nat)
    requires FlagsRight(us, table, deviceEnd, image, list, offset)
    ensures FlagsRight(Granted(us, minBits, listSize), table, deviceEnd, image, list, offset)
  {
    var gs := Granted(us, minBits, listSize);
    forall k, x | 0 <= k < |gs| && Word(x) && HasChunk(gs[k].chunk, x)
      ensures if gs[k].device then IsDevice(table, deviceEnd, offset, x) else IsMapped(image, list, |list|, offset, x)
    {
      var j := UsefulIsOffered(us, minBits, k);
      assert us[j] == gs[k];
    }
  }

  /**
    The list holds chunks that were offered, each large enough, aligned and not too
    large; and unless it is full, it holds all that are large enough.
   */
  ghost predicate Selected(caps: seq<Untyped>, us: seq<Untyped>, minBits: nat, maxBits: nat, listSize: nat) {
    && |caps| <= listSize
    && (forall u :: u in caps ==>
          u in us && minBits <= u.chunk.bits <= maxBits && Aligned(u.chunk.start, u.chunk.bits))
    && (|caps| < listSize ==> forall u :: u in us && u.chunk.bits >= minBits ==> u in caps)
  }

  lemma {:induction false} UsefulMembers(us: seq<Untyped>, minBits: nat)
    ensures forall u :: u in Useful(us, minBits) <==> u in us && u.chunk.bits >= minBits
    decreases |us|
  {
    if us != [] {
      UsefulMembers(us[..|us| - 1], minBits);
      assert us == us[..|us| - 1] + [us[|us| - 1]];
    }
  }

  lemma {:induction false} GrantedSelected(cuts: seq<Cut>, minBits: nat, maxBits: nat, listSize: nat)
    requires maxBits <= 63 && AllGood(cuts, maxBits)
    ensures Selected(Granted(OffersOf(cuts), minBits, listSize), OffersOf(cuts), minBits, maxBits, listSize)
  {
    var us := OffersOf(cuts);
    UsefulMembers(us, minBits);
    forall u | u in us ensures u.chunk.bits <= maxBits && Aligned(u.chunk.start, u.chunk.bits) {
      var k :| 0 <= k < |us| && us[k] == u;
      var _ := OfferInCut(cuts, maxBits, k);
    }
    assert forall u :: u in Granted(us, minBits, listSize) ==> u in Useful(us, minBits);
  }

  /** Device memory: what the table leaves open below the top, or below some entry. */
  lemma {:induction false} DeviceEndExact(table: seq<Region>, deviceTop: nat, offset: nat, x: int)
    requires Separated(table)
    ensures IsDevice(table, DeviceEnd(table, deviceTop), offset, x) <==>
      && !Covers(table, Physical(x, offset))
      && (Physical(x, offset) < deviceTop || exists i :: 0 <= i < |table| && Physical(x, offset) < table[i].start)
  {
    var y := Physical(x, offset);
    if table != [] && y < table[|table| - 1].end && !Covers(table, y) {
      assert !Has(table[|table| - 1], y);
    }
  }

  /** In a sound state nothing mapped is taken for device memory, and the block is not offered. */
  lemma SoundKnown(
    us: seq<Untyped>, table: seq<Region>, deviceEnd: int, image: Region, list: seq<Region>, offset: nat, block: Region)
    requires Sound(table, list, offset, image, block) && Covered(us, table, deviceEnd, image, list, offset)
    ensures Known(table, deviceEnd, image, list, |list|, offset) && Avoids(us, block)
  {
    assert list[..|list|] == list;
  }

  /**
    `create_untypeds`: device memory, the part of the kernel image that only booting
    needs, and free memory.  Every address of these is in a chunk and no other
    address in any.  Two chunks overlap exactly if some of the mapped memory is not in
    the table and so is taken for device memory; in a sound state none is.  The
    capabilities are those of the useful chunks.
   */
  method CreateUntypeds(mem: Memory, store: CapStore, deviceTop: nat, image: Region) returns (ok: bool)
    requires mem.Valid() && Word(mem.offset) && Word(deviceTop) && InWords(mem.freemem[..])
    requires store.Valid() && store.AllCut() && store.cuts == []
    requires 0 <= image.start <= image.end && Word(image.end)
    modifies store, mem.freemem
    ensures mem.Valid() && mem.Table() == old(mem.Table())
    ensures ok ==> store.caps == Granted(store.offered, store.minBits, store.listSize)
    ensures ok ==> Selected(store.caps, store.offered, store.minBits, store.maxBits, store.listSize)
    ensures ok ==> forall k :: 0 <= k < mem.freemem.Length ==> mem.freemem[k] == Region(0, 0)
    ensures ok && old(InPlace(mem.Table(), mem.freemem[..], mem.offset, image)) ==>
      var deviceEnd := DeviceEnd(mem.Table(), deviceTop);
      && FlagsRight(store.offered, mem.Table(), deviceEnd, image, old(mem.freemem[..]), mem.offset)
      && FlagsRight(store.caps, mem.Table(), deviceEnd, image, old(mem.freemem[..]), mem.offset)
    ensures ok && old(InPlace(mem.Table(), mem.freemem[..], mem.offset, image)) ==>
      Covered(
        store.offered, mem.Table(), DeviceEnd(mem.Table(), deviceTop), image, old(mem.freemem[..]), mem.offset)
    ensures ok && old(InPlace(mem.Table(), mem.freemem[..], mem.offset, image)) ==>
      (NoOverlap(store.offered) <==>
        Known(
          mem.Table(), DeviceEnd(mem.Table(), deviceTop), image, old(mem.freemem[..]), mem.freemem.Length, mem.offset))
    ensures forall block :: ok && old(Sound(mem.Table(), mem.freemem[..], mem.offset, image, block)) ==>
      NoOverlap(store.offered) && NoOverlap(store.caps) && Avoids(store.caps, block)
    ensures
      (&& store.listSize <= store.slots && store.Inside(Virtual(image, mem.offset))
       && forall k :: 0 <= k < mem.freemem.Length ==> store.Inside(old(mem.freemem[k])))
      ==> ok
  {
    ghost var table, list := mem.Table(), mem.freemem[..];
    ghost var inPlace := InPlace(table, list, mem.offset, image);
    ghost var deviceEnd := DeviceEnd(table, deviceTop);
    ok := OfferDeviceMemory(mem, store, deviceTop);
    if !ok {
      return;
    }
    ghost var gaps, flags := RegionsOf(store.cuts), Flags(store.cuts);
    if inPlace { ImageNext(table, list, mem.offset, image, gaps, deviceEnd); }
    VirtualHas(image, mem.offset, 0);
    ok := Offer(store, false, Virtual(image, mem.offset));
    if !ok {
      return;
    }
    ghost var done, marks := RegionsOf(store.cuts), Flags(store.cuts);
    ok := OfferFreeMemory(mem, store);
    if !ok {
      return;
    }
    GrantedSelected(store.cuts, store.minBits, store.maxBits, store.listSize);
    FlagsSplit(flags, marks, Flags(store.cuts));
    if inPlace {
      OffersFlagged(store.cuts, store.maxBits, gaps, table, deviceEnd, image, list, mem.offset);
      GrantedFlags(store.offered, store.minBits, store.listSize, table, deviceEnd, image, list, mem.offset);
      AllLaid(store.cuts, store.maxBits, done, table, deviceEnd, image, list, mem.offset);
      forall block | Sound(table, list, mem.offset, image, block)
        ensures NoOverlap(store.offered) && NoOverlap(store.caps) && Avoids(store.caps, block)
      {
        SoundKnown(store.offered, table, deviceEnd, image, list, mem.offset, block);
        GrantedApart(store.offered, store.minBits, store.listSize, block);
      }
    }
  }

  // ---- From the memory map to the capabilities ----------------------------------------------------

  /** The kernel image is among the reserved regions, and nothing was reserved before that is listed again. */
  ghost predicate Prepared(
    before: seq<Region>, offset: nat, avail: seq<Region>, reserved: seq<Region>, image: Region)
  {
    && Separated(before) && Clear(before, offset, avail, reserved)
    && forall y :: Has(image, y) ==> Covers(reserved, y + offset)
  }

  /**
    What `init_freemem` leaves is tidy if the kernel image was reserved and nothing was
    reserved twice, and sound if besides the table lost nothing.
   */
  lemma InitSound(
    before: seq<Region>, now: seq<Region>, offset: nat, avail: seq<Region>, reserved: seq<Region>,
    free: seq<Region>, list: seq<Region>, start: nat, size: nat, bits: nat, image: Region, complete: bool)
    requires Subtracted(avail, reserved, free) && Recorded(before, now, offset, avail, reserved, free, complete)
    requires Carved(free, list, start, size, bits)
    requires Prepared(before, offset, avail, reserved, image) && FreeMemory.InWindow(avail, offset)
    ensures InPlace(now, list, offset, image)
    ensures complete ==> Sound(now, list, offset, image, Region(start, start + size))
    ensures forall x :: start <= x < start + size ==> !Has(image, Physical(x, offset)) && !Covers(list, x)
  {
    forall x | Covers(free, x)
      ensures complete ==> Covers(now, Physical(x, offset))
      ensures !Has(image, Physical(x, offset))
    {
      assert Covers(avail, x) && !Covers(reserved, x);
      assert Physical(x, offset) == x - offset;
      assert ToNote(before, offset, free, reserved, x - offset);
    }
    forall y | Has(image, y) && complete ensures Covers(now, y) {
      assert ToNote(before, offset, free, reserved, y);
    }
  }

  /** What is left is what is available, less the reserved and the block. */
  ghost predicate LeftOver(avail: seq<Region>, reserved: seq<Region>, list: seq<Region>, start: nat, size: nat) {
    var exact := forall x :: Covers(list, x) <==>
      Covers(avail, x) && !Covers(reserved, x) && !(start <= x < start + size);
    exact
  }

  lemma CarvedLeaves(
    avail: seq<Region>, reserved: seq<Region>, free: seq<Region>, list: seq<Region>, start: nat, size: nat, bits: nat)
    requires Subtracted(avail, reserved, free) && Carved(free, list, start, size, bits)
    ensures LeftOver(avail, reserved, list, start, size)
  {
  }

  /** The free regions left lie in the window that was mapped. */
  lemma ListInside(
    store: CapStore, available: seq<Region>, offset: nat, top: nat, reserved: seq<Region>, free: seq<Region>,
    list: seq<Region>, start: nat, size: nat, bits: nat)
    requires Ordered(available) && forall i :: 0 <= i < |available| ==> 0 <= available[i].start
    requires Subtracted(ClippedAll(available, offset, top), reserved, free) && Carved(free, list, start, size, bits)
    requires store.windowBase <= offset && offset + top <= store.windowTop
    ensures forall k :: 0 <= k < |list| ==> store.Inside(list[k])
  {
    var avail := ClippedAll(available, offset, top);
    forall k | 0 <= k < |list| && list[k].start < list[k].end ensures store.Inside(list[k]) {
      assert Has(list[k], list[k].start) && Has(list[k], list[k].end - 1);
      assert Covers(list, list[k].start) && Covers(list, list[k].end - 1);
      assert Covers(avail, list[k].start) && Covers(avail, list[k].end - 1);
    }
  }

  /** Below the end of device memory the table knows the block. */
  ghost predicate BlockKnown(table: seq<Region>, deviceEnd: int, block: Region, offset: nat) {
    forall x :: Word(x) && Has(block, x) ==> !IsDevice(table, deviceEnd, offset, x)
  }

  /** A block that is neither in the image nor in the list is offered where it is taken for device memory. */
  lemma BlockOffered(
    us: seq<Untyped>, table: seq<Region>, deviceEnd: int, image: Region, list: seq<Region>, offset: nat, block: Region)
    requires Covered(us, table, deviceEnd, image, list, offset)
    requires forall x :: Has(block, x) ==> !Has(image, Physical(x, offset)) && !Covers(list, x)
    ensures Avoids(us, block) <==> BlockKnown(table, deviceEnd, block, offset)
  {
    assert list[..|list|] == list;
    forall x | Word(x) && Has(block, x) ensures InOffers(us, x) <==> IsDevice(table, deviceEnd, offset, x) {
      assert !IsMapped(image, list, |list|, offset, x);
    }
  }

  /**
    The two steps as the architecture's boot code runs them.  If they succeed, the
    kernel image was among the reserved regions, and nothing was reserved before that is
    available or reserved again, then the offers overlap exactly where memory in use is
    missing from the table; if the table did not overflow, none is, so no two
    capabilities overlap and none overlaps the root server's objects.
   */
  method InitMemory(
    mem: Memory, store: CapStore, available: seq<Region>, reserved: seq<Region>, availReg: array<Region>,
    top: nat, size: nat, bits: nat, deviceTop: nat, image: Region)
    returns (ok: bool, start: nat, ghost free: seq<Region>, ghost list: seq<Region>)
    requires mem.Valid() && availReg != mem.reserved && availReg != mem.freemem && |available| <= availReg.Length
    requires mem.offset + top < 0x1_0000_0000_0000_0000 && Word(size) && Word(deviceTop)
    requires store.Valid() && store.AllCut() && store.cuts == []
    requires forall i :: 0 <= i < |available| ==> Word(available[i].start) && Word(available[i].end)
    requires FreeMemory.InWindow(reserved, mem.offset)
    requires 0 <= image.start <= image.end && Word(image.end)
    modifies mem`resvCount, mem`lost, mem`dropped, mem.reserved, mem.freemem, availReg, store
    ensures mem.Valid()
    ensures Checked(available, reserved) ==> Pieces(ClippedAll(available, mem.offset, top), reserved, free)
    ensures ok ==> Checked(available, reserved) && |free| < mem.freemem.Length
    ensures ok && size > 0 ==> HighestRoom(ClippedAll(available, mem.offset, top), reserved, start, size, bits)
    ensures ok ==> CutFromOne(free, list, start, size)
    ensures
      (&& Checked(available, reserved) && |free| < mem.freemem.Length
       && size > 0 && HasRoom(ClippedAll(available, mem.offset, top), reserved, size, bits)
       && store.windowBase <= mem.offset && mem.offset + top <= store.windowTop
       && store.listSize <= store.slots && store.Inside(Virtual(image, mem.offset)))
      ==> ok
    ensures ok ==> LeftOver(ClippedAll(available, mem.offset, top), reserved, list, start, size)
    ensures ok ==> store.caps == Granted(store.offered, store.minBits, store.listSize)
    ensures ok ==> Selected(store.caps, store.offered, store.minBits, store.maxBits, store.listSize)
    ensures
      ok && Prepared(old(mem.Table()), mem.offset, ClippedAll(available, mem.offset, top), reserved, image) ==>
      var deviceEnd := DeviceEnd(mem.Table(), deviceTop);
      && Covered(store.offered, mem.Table(), deviceEnd, image, list, mem.offset)
      && FlagsRight(store.offered, mem.Table(), deviceEnd, image, list, mem.offset)
      && FlagsRight(store.caps, mem.Table(), deviceEnd, image, list, mem.offset)
      && (NoOverlap(store.offered) <==> Known(mem.Table(), deviceEnd, image, list, |list|, mem.offset))
      && (Avoids(store.offered, Region(start, start + size)) <==>
            BlockKnown(mem.Table(), deviceEnd, Region(start, start + size), mem.offset))
    ensures
      (&& ok && !mem.lost
       && Prepared(old(mem.Table()), mem.offset, ClippedAll(available, mem.offset, top), reserved, image))
      ==>
      NoOverlap(store.offered) && NoOverlap(store.caps) && Avoids(store.caps, Region(start, start + size))
    ensures RoomyTable(mem, old(mem.Table()), available, reserved) ==> mem.lost == old(mem.lost)
  {
    ghost var before, avail := mem.Table(), ClippedAll(available, mem.offset, top);
    ok, start, free := InitFreemem(mem, available, reserved, availReg, top, size, bits);
    list := mem.freemem[..];
    if !ok {
      return;
    }
    ClippedSorted(available, mem.offset, top);
    CarvedLeaves(avail, reserved, free, list, start, size, bits);
    ghost var block := Region(start, start + size);
    if Prepared(before, mem.offset, avail, reserved, image) {
      InitSound(before, mem.Table(), mem.offset, avail, reserved, free, list, start, size, bits, image, !mem.lost);
    }
    if store.windowBase <= mem.offset && mem.offset + top <= store.windowTop {
      ListInside(store, available, mem.offset, top, reserved, free, list, start, size, bits);
    }
    ok := CreateUntypeds(mem, store, deviceTop, image);
    if ok && Prepared(before, mem.offset, avail, reserved, image) {
      ghost var deviceEnd := DeviceEnd(mem.Table(), deviceTop);
      BlockOffered(store.offered, mem.Table(), deviceEnd, image, list, mem.offset, block);
    }
  }
}
