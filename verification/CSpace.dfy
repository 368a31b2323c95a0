/**
  Capability lookup.  A capability address is a word whose bits select a path
  through CNodes; each CNode consumes a guard and an index.  The general lookup
  shifts the address right from its top remaining bit, the fastpath lookup shifts
  it left and postpones the depth check; both are proved against one reference.
 */
module CSpace {
  import opened Bits

  datatype Cap =
    | NullCap
    | CNodeCap(ptr: nat, radix: nat, guardSize: nat, guard: nat)
    | EndpointCap(ep: nat, canSend: bool, canReceive: bool, canGrant: bool, canGrantReply: bool)
    | ReplyCap(reply: nat)
    | ObjectCap(kind: nat)

  /** Capability slots by address, and the number of bits in a word. */
  datatype Slots = Slots(wordBits: nat, at: map<nat, Cap>) {

    /** The fields of a CNode capability hold what its constructors allow, and its CNode is in memory. */
    ghost predicate WellFormedCap(c: Cap) {
      c.CNodeCap? ==>
        && 1 <= c.radix < wordBits
        && c.guardSize < wordBits
        && c.guard < Pow2(c.guardSize)
        && forall a :: c.ptr <= a < c.ptr + Pow2(c.radix) ==> a in at
    }

    /** Nothing is said about where CNodes point, so their graph may be cyclic. */
    ghost predicate WellFormed() {
      forall a :: a in at ==> WellFormedCap(at[a])
    }
  }

  datatype LookupFault =
    | InvalidRoot
    | GuardMismatch(guard: nat, bitsLeft: nat, bitsFound: nat)
    | DepthMismatch(bitsFound: nat, bitsLeft: nat)

  datatype Resolution =
    | Resolved(slot: nat, bitsRemaining: nat)
    | Faulted(fault: LookupFault)

  // ---- Reference ---------------------------------------------------------

  /** The index that follows the guard in an address whose remaining n bits are v. */
  function IndexIn(c: Cap, v: nat, n: nat): nat
    requires c.CNodeCap? && c.guardSize + c.radix <= n
  {
    Shr(Low(v, n - c.guardSize), n - c.guardSize - c.radix)
  }

  lemma {:induction false} IndexBound(c: Cap, v: nat, n: nat)
    requires c.CNodeCap? && c.guardSize + c.radix <= n
    ensures IndexIn(c, v, n) < Pow2(c.radix)
  {
    LowBound(v, n - c.guardSize);
    ShrBound(Low(v, n - c.guardSize), n - c.guardSize - c.radix, c.radix);
  }

  /** Resolve the remaining n bits v of an address from a CNode capability. */
  ghost function Resolve(s: Slots, c: Cap, v: nat, n: nat): (r: Resolution)
    requires s.WellFormed() && s.WellFormedCap(c)
    ensures r.Resolved? ==> r.slot in s.at && r.bitsRemaining < n
    decreases n
  {
    if !c.CNodeCap? then
      Faulted(InvalidRoot)
    else if c.guardSize > n || Shr(v, n - c.guardSize) != c.guard then
      Faulted(GuardMismatch(c.guard, n, c.guardSize))
    else if c.guardSize + c.radix > n then
      Faulted(DepthMismatch(c.guardSize + c.radix, n))
    else
      IndexBound(c, v, n);
      var slot := c.ptr + IndexIn(c, v, n);
      var left := n - c.guardSize - c.radix;
      if left == 0 || !s.at[slot].CNodeCap? then Resolved(slot, left)
      else Resolve(s, s.at[slot], Low(v, left), left)
  }

  /** The capability an address names; a fault names none. */
  ghost function CapAt(s: Slots, r: Resolution): Cap
    requires r.Resolved? ==> r.slot in s.at
  {
    if r.Resolved? then s.at[r.slot] else NullCap
  }

  // ---- The path of an address -------------------------------------------------

  /** How many bits of an address the CNodes of a path consume. */
  function Levels(path: seq<Cap>): nat
    requires forall i :: 0 <= i < |path| ==> path[i].CNodeCap?
  {
    if path == [] then 0 else path[0].guardSize + path[0].radix + Levels(path[1..])
  }

  /** The n bits left of x begin with the guard of c, if that many are left. */
  predicate GuardMatches(c: Cap, x: nat, n: nat)
    requires c.CNodeCap?
  {
    c.guardSize <= n && Shr(Low(x, n), n - c.guardSize) == c.guard
  }

  /** They also have an index, which names this slot. */
  predicate Names(c: Cap, x: nat, n: nat, slot: nat)
    requires c.CNodeCap?
  {
    GuardMatches(c, x, n) && c.guardSize + c.radix <= n && slot == c.ptr + IndexIn(c, Low(x, n), n)
  }

  /** Each CNode of the path is found in the slot that the one before names in what it leaves of the n bits of x. */
  predicate Leads(s: Slots, x: nat, n: nat, path: seq<Cap>) {
    && path != [] && path[0].CNodeCap?
    && (|path| > 1 ==>
          && path[0].guardSize + path[0].radix <= n
          && (exists slot: nat :: slot in s.at && Names(path[0], x, n, slot) && path[1] == s.at[slot])
          && Leads(s, x, n - path[0].guardSize - path[0].radix, path[1..]))
  }

  /** What an address of n bits resolves to is what the last CNode of its path makes of the bits left there. */
  ghost predicate Outcome(s: Slots, x: nat, n: nat, path: seq<Cap>, r: Resolution) {
    && path != [] && (forall i :: 0 <= i < |path| ==> path[i].CNodeCap?)
    && var last, before := path[|path| - 1], Levels(path[..|path| - 1]);
      && before <= n
      && var left := n - before;
        match r
        case Resolved(slot, bitsRemaining) =>
          && slot in s.at && Names(last, x, left, slot)
          && bitsRemaining == n - Levels(path) && (bitsRemaining > 0 ==> !s.at[slot].CNodeCap?)
        case Faulted(GuardMismatch(guard, bitsLeft, bitsFound)) =>
          && guard == last.guard && bitsLeft == left && bitsFound == last.guardSize
          && !GuardMatches(last, x, left)
        case Faulted(DepthMismatch(bitsFound, bitsLeft)) =>
          && bitsFound == last.guardSize + last.radix && bitsLeft == left
          && bitsFound > bitsLeft && GuardMatches(last, x, left)
        case Faulted(InvalidRoot) => false
  }

  /** There is a path that says so, and only a root that is no CNode is an invalid one. */
  ghost predicate Explained(s: Slots, root: Cap, x: nat, n: nat, r: Resolution) {
    if root.CNodeCap? then exists path :: Leads(s, x, n, path) && path[0] == root && Outcome(s, x, n, path, r)
    else r == Faulted(InvalidRoot)
  }

  /** A slot is named by an address whose n bits are the guard, the slot's place in the CNode, and what is left. */
  lemma {:induction false} NamesSplits(s: Slots, c: Cap, x: nat, n: nat, slot: nat)
    requires c.CNodeCap? && s.WellFormedCap(c) && Names(c, x, n, slot)
    ensures var left := n - c.guardSize - c.radix;
      && c.ptr <= slot < c.ptr + Pow2(c.radix)
      && Low(x, n) == c.guard * Pow2(c.radix + left) + (slot - c.ptr) * Pow2(left) + Low(x, left)
  {
    var left := n - c.guardSize - c.radix;
    IndexBound(c, Low(x, n), n);
    HighAndLow(Low(x, n), c.radix + left);
    HighAndLow(Low(Low(x, n), c.radix + left), left);
    LowOfLow(Low(x, n), left, c.radix + left);
    LowOfLow(x, left, n);
  }

  /** One CNode more at the front of the path. */
  lemma OutcomeFurther(s: Slots, c: Cap, x: nat, n: nat, path: seq<Cap>, r: Resolution)
    requires c.CNodeCap? && c.guardSize + c.radix <= n
    requires Outcome(s, x, n - c.guardSize - c.radix, path, r)
    ensures Outcome(s, x, n, [c] + path, r)
  {
    var all := [c] + path;
    assert all[1..] == path;
    assert all[..|all| - 1][1..] == path[..|path| - 1];
  }

  /** A lookup that ends at its first CNode. */
  lemma {:induction false} LeafExplained(s: Slots, c: Cap, x: nat, n: nat, r: Resolution)
    requires c.CNodeCap? && Outcome(s, x, n, [c], r)
    ensures Explained(s, c, x, n, r)
  {
    assert Leads(s, x, n, [c]);
  }

  /** One that goes on to the CNode in the slot it names. */
  lemma {:induction false} FurtherExplained(s: Slots, c: Cap, x: nat, n: nat, slot: nat, r: Resolution)
    requires c.CNodeCap? && Names(c, x, n, slot) && slot in s.at && s.at[slot].CNodeCap?
    requires Explained(s, s.at[slot], x, n - c.guardSize - c.radix, r)
    ensures Explained(s, c, x, n, r)
  {
    var left := n - c.guardSize - c.radix;
    var path :| Leads(s, x, left, path) && path[0] == s.at[slot] && Outcome(s, x, left, path, r);
    var all := [c] + path;
    assert all[1..] == path;
    OutcomeFurther(s, c, x, n, path, r);
    assert Leads(s, x, n, all) && all[0] == c;
  }

  lemma {:induction false} FirstOutcome(s: Slots, c: Cap, x: nat, n: nat)
    requires s.WellFormed() && s.WellFormedCap(c) && c.CNodeCap?
    requires GuardMatches(c, x, n) && c.guardSize + c.radix < n ==>
      var slot := c.ptr + IndexIn(c, Low(x, n), n); slot in s.at && !s.at[slot].CNodeCap?
    ensures Outcome(s, x, n, [c], Resolve(s, c, Low(x, n), n))
  {
    assert [c][..0] == [] && [c][1..] == [];
    if c.guardSize + c.radix <= n { IndexBound(c, Low(x, n), n); }
  }

  lemma {:induction false} ResolveExplained(s: Slots, c: Cap, x: nat, n: nat)
    requires s.WellFormed() && s.WellFormedCap(c)
    ensures Explained(s, c, x, n, Resolve(s, c, Low(x, n), n))
    decreases n
  {
    if c.CNodeCap? {
      var r := Resolve(s, c, Low(x, n), n);
      if GuardMatches(c, x, n) && c.guardSize + c.radix < n {
        var slot, left := c.ptr + IndexIn(c, Low(x, n), n), n - c.guardSize - c.radix;
        IndexBound(c, Low(x, n), n);
        if s.at[slot].CNodeCap? {
          LowOfLow(x, left, n);
          ResolveExplained(s, s.at[slot], x, left);
          FurtherExplained(s, c, x, n, slot, r);
          return;
        }
      }
      FirstOutcome(s, c, x, n);
      LeafExplained(s, c, x, n, r);
    }
  }

  // ---- The general lookup ------------------------------------------------

  /** Masking a shift amount with the word radix matters only when it is the whole word. */
  lemma MaskedShift(d: nat, w: nat)
    requires d <= w && w > 0
    ensures d % w == if d == w then 0 else d
  {
    DivModUnique(d, w, if d == w then 1 else 0, if d == w then 0 else d);
  }

  /** What the guard expression of the general lookup reads from the whole address. */
  lemma {:induction false} SlowGuard(x: nat, n: nat, g: nat, w: nat)
    requires g <= n <= w && w > 0
    ensures Low(Shr(x, (n - g) % w), g) == Shr(Low(x, n), n - g)
  {
    MaskedShift(n - g, w);
    if n - g == w {
      LowBound(x, n);
      Small(Low(x, n), n);
    } else {
      ShrThenLow(x, n - g, g);
    }
  }

  /** What the offset expression of the general lookup reads, and what it leaves. */
  lemma {:induction false} SlowIndex(x: nat, n: nat, c: Cap)
    requires c.CNodeCap? && c.guardSize + c.radix <= n
    ensures Low(Shr(x, n - c.guardSize - c.radix), c.radix) == IndexIn(c, Low(x, n), n)
    ensures Low(Low(x, n), n - c.guardSize - c.radix) == Low(x, n - c.guardSize - c.radix)
  {
    var left := n - c.guardSize - c.radix;
    ShrThenLow(x, left, c.radix);
    assert left + c.radix == n - c.guardSize;
    LowOfLow(x, n - c.guardSize, n);
    LowOfLow(x, left, n);
  }

  /** One level of the resolution, in terms of what the general lookup computes. */
  lemma {:induction false} SlowStep(s: Slots, c: Cap, x: nat, n: nat)
    requires s.WellFormed() && s.WellFormedCap(c) && c.CNodeCap? && n <= s.wordBits && s.wordBits > 0
    ensures var r, level := Resolve(s, c, Low(x, n), n), c.radix + c.guardSize;
      if c.guardSize > n || Low(Shr(x, (n - c.guardSize) % s.wordBits), c.guardSize) != c.guard
      then r == Faulted(GuardMismatch(c.guard, n, c.guardSize))
      else if level > n then r == Faulted(DepthMismatch(level, n))
      else
        var slot := c.ptr + Low(Shr(x, n - level), c.radix);
        slot in s.at
        && r == if n == level || !s.at[slot].CNodeCap? then Resolved(slot, n - level)
                else Resolve(s, s.at[slot], Low(x, n - level), n - level)
  {
    if c.guardSize <= n { SlowGuard(x, n, c.guardSize, s.wordBits); }
    if c.guardSize + c.radix <= n {
      SlowIndex(x, n, c);
      IndexBound(c, Low(x, n), n);
    }
  }

  /** `resolveAddressBits` */
  method ResolveAddressBits(s: Slots, root: Cap, capptr: nat, nBits: nat) returns (r: Resolution)
    requires s.WellFormed() && s.WellFormedCap(root) && s.wordBits > 0
    requires nBits <= s.wordBits
    ensures r == Resolve(s, root, Low(capptr, nBits), nBits)
    ensures Explained(s, root, capptr, nBits, r)
  {
    ResolveExplained(s, root, capptr, nBits);
    if !root.CNodeCap? {
      return Faulted(InvalidRoot);
    }
    r := WalkLevels(s, root, capptr, nBits);
  }

  /** The loop of `resolveAddressBits` */
  method WalkLevels(s: Slots, root: Cap, capptr: nat, nBits: nat) returns (r: Resolution)
    requires s.WellFormed() && s.WellFormedCap(root) && s.wordBits > 0
    requires nBits <= s.wordBits && root.CNodeCap?
    ensures r == Resolve(s, root, Low(capptr, nBits), nBits)
  {
    var nodeCap, n: nat := root, nBits;
    ghost var answer := Resolve(s, root, Low(capptr, nBits), nBits);
    while true
      invariant nodeCap.CNodeCap? && s.WellFormedCap(nodeCap) && n <= nBits
      invariant answer == Resolve(s, nodeCap, Low(capptr, n), n)
      decreases n
    {
      var radixBits, guardBits := nodeCap.radix, nodeCap.guardSize;
      var levelBits := radixBits + guardBits;
      var guard := Low(Shr(capptr, (n - guardBits) % s.wordBits), guardBits);
      SlowStep(s, nodeCap, capptr, n);
      if guardBits > n || guard != nodeCap.guard {
        return Faulted(GuardMismatch(nodeCap.guard, n, guardBits));
      }
      if levelBits > n {
        return Faulted(DepthMismatch(levelBits, n));
      }
      var offset := Low(Shr(capptr, n - levelBits), radixBits);
      var slot := nodeCap.ptr + offset;
      if n == levelBits {
        return Resolved(slot, 0);
      }
      n := n - levelBits;
      nodeCap := s.at[slot];
      if !nodeCap.CNodeCap? {
        return Resolved(slot, n);
      }
    }
  }

  /** `lookupCap`, with the fault that `lookupSlot` records. */
  method LookupCap(s: Slots, root: Cap, capptr: nat) returns (r: Resolution, cap: Cap)
    requires s.WellFormed() && s.WellFormedCap(root) && s.wordBits > 0 && capptr < Pow2(s.wordBits)
    ensures r == Resolve(s, root, capptr, s.wordBits) && Explained(s, root, capptr, s.wordBits, r)
    ensures cap == CapAt(s, r)
  {
    Small(capptr, s.wordBits);
    r := ResolveAddressBits(s, root, capptr, s.wordBits);
    cap := if r.Resolved? then s.at[r.slot] else NullCap;
  }

  // ---- The fastpath lookup -----------------------------------------------

  /** What the guard expression of the fastpath lookup reads with n bits of the address left. */
  lemma {:induction false} FastGuard(x: nat, n: nat, g: nat, w: nat)
    requires g <= n <= w
    ensures Shr(Low(Shl(x, w - n), w), w - g) == Shr(Low(x, n), n - g)
  {
    ShlKeepsLow(x, w - n, n);
    ShlThenShr(Low(x, n), w - n, n - g);
  }

  /** The index the fastpath lookup computes from the address shifted left past n bits. */
  function FastIndex(x: nat, n: nat, c: Cap, w: nat): nat
    requires c.CNodeCap? && n <= w && c.radix <= w
  {
    Shr(Low(Shl(Low(Shl(x, w - n), w), c.guardSize), w), w - c.radix)
  }

  lemma {:induction false} FastIndexBound(x: nat, n: nat, c: Cap, w: nat)
    requires c.CNodeCap? && n <= w && c.radix <= w
    ensures FastIndex(x, n, c, w) < Pow2(c.radix)
  {
    var y := Shl(Low(Shl(x, w - n), w), c.guardSize);
    LowBound(y, w);
    ShrBound(Low(y, w), w - c.radix, c.radix);
  }

  /** In a w-bit word, shifting left by a and g and right again drops exactly the top g of the low w - a bits. */
  lemma {:induction false} ShlDropsTop(v: nat, a: nat, g: nat, r: nat, w: nat)
    requires a + g + r <= w
    ensures Shr(Low(Shl(Shl(v, a), g), w), w - r) == Shr(Low(v, w - a - g), w - a - g - r)
  {
    var b := w - a - g;
    ShlSum(v, a, g);
    ShlKeepsLow(v, a + g, b);
    assert (a + g) + b == w;
    ShlThenShr(Low(v, b), a + g, b - r);
    assert (a + g) + (b - r) == w - r;
  }

  /** The same in a word of which the top a bits were shifted out before. */
  lemma {:induction false} ShlTwice(x: nat, a: nat, n: nat, g: nat, r: nat, w: nat)
    requires g + r <= n && a + n == w
    ensures Shr(Low(Shl(Low(Shl(x, a), w), g), w), w - r) == Shr(Low(Low(x, n), n - g), n - g - r)
  {
    ShlKeepsLow(x, a, n);
    ShlDropsTop(Low(x, n), a, g, r, w);
    assert w - a - g == n - g && w - a - g - r == n - g - r;
  }

  /** Where the level fits, the fastpath index is the reference index. */
  lemma {:induction false} FastIndexRight(x: nat, n: nat, c: Cap, w: nat)
    requires c.CNodeCap? && n <= w && c.guardSize + c.radix <= n
    ensures FastIndex(x, n, c, w) == IndexIn(c, Low(x, n), n)
  {
    ShlTwice(x, w - n, n, c.guardSize, c.radix, w);
  }

  /** One level of the fastpath lookup against the reference, the postponed depth check included. */
  lemma {:induction false} FastStep(s: Slots, c: Cap, x: nat, n: nat)
    requires s.WellFormed() && s.WellFormedCap(c) && c.CNodeCap? && n <= s.wordBits
    ensures c.ptr + FastIndex(x, n, c, s.wordBits) in s.at
    ensures
      var w, g := s.wordBits, c.guardSize;
      var answer := CapAt(s, Resolve(s, c, Low(x, n), n));
      var next := s.at[c.ptr + FastIndex(x, n, c, w)];
      if g != 0 && Shr(Low(Shl(x, w - n), w), w - g) != c.guard then answer == NullCap
      else if g + c.radix > n then answer == NullCap
      else if g + c.radix == n || !next.CNodeCap? then answer == next
      else answer == CapAt(s, Resolve(s, next, Low(x, n - g - c.radix), n - g - c.radix))
  {
    var w, g, v := s.wordBits, c.guardSize, Low(x, n);
    FastIndexBound(x, n, c, w);
    if g <= n {
      FastGuard(x, n, g, w);
      if g == 0 {
        LowBound(x, n);
        Small(v, n);
      }
      if g + c.radix <= n {
        FastIndexRight(x, n, c, w);
        LowOfLow(x, n - g - c.radix, n);
      }
    }
  }

  /**
    `lookup_fp` returns the capability that the general lookup of the whole word
    returns, and the null capability exactly where that one faults.
   */
  method LookupFp(s: Slots, root: Cap, cptr: nat) returns (cap: Cap)
    requires s.WellFormed() && s.WellFormedCap(root) && s.wordBits > 0 && cptr < Pow2(s.wordBits)
    ensures cap == CapAt(s, Resolve(s, root, cptr, s.wordBits))
  {
    var w := s.wordBits;
    if !root.CNodeCap? {
      return NullCap;
    }
    Small(cptr, w);
    cap := root;
    var bits: nat := 0;
    ghost var answer := CapAt(s, Resolve(s, root, cptr, w));
    while true
      invariant cap.CNodeCap? && s.WellFormedCap(cap) && bits < w
      invariant answer == CapAt(s, Resolve(s, cap, Low(cptr, w - bits), w - bits))
      decreases w - bits
    {
      var fault;
      fault, cap, bits := FastLevel(s, cap, cptr, bits);
      if fault {
        return NullCap;
      }
      if !(bits < w && cap.CNodeCap?) {
        break;
      }
    }
    if bits > w {
      return NullCap;
    }
  }

  /** One turn of the loop: a guard that does not match, or the capability one level down. */
  method FastLevel(s: Slots, cap: Cap, cptr: nat, bits: nat) returns (fault: bool, next: Cap, bits': nat)
    requires s.WellFormed() && s.WellFormedCap(cap) && cap.CNodeCap? && bits < s.wordBits
    ensures !fault ==> bits' > bits && s.WellFormedCap(next)
    ensures
      var w := s.wordBits;
      var answer := CapAt(s, Resolve(s, cap, Low(cptr, w - bits), w - bits));
      if fault || bits' > w then answer == NullCap
      else if bits' == w || !next.CNodeCap? then answer == next
      else answer == CapAt(s, Resolve(s, next, Low(cptr, w - bits'), w - bits'))
  {
    var w := s.wordBits;
    ghost var n := w - bits;
    FastStep(s, cap, cptr, n);
    assert bits == w - n;
    var guardBits, radixBits := cap.guardSize, cap.radix;
    var cptr2 := Low(Shl(cptr, bits), w);
    if guardBits != 0 && Shr(cptr2, w - guardBits) != cap.guard {
      return true, NullCap, bits;
    }
    var radix := Shr(Low(Shl(cptr2, guardBits), w), w - radixBits);
    assert radix == FastIndex(cptr, n, cap, w);
    next := s.at[cap.ptr + radix];
    fault, bits' := false, bits + guardBits + radixBits;
  }

  /** On every address of every well-formed space the two lookups name the same capability. */
  method LookupsAgree(s: Slots, root: Cap, cptr: nat) returns (fast: Cap, general: Cap)
    requires s.WellFormed() && s.WellFormedCap(root) && s.wordBits > 0 && cptr < Pow2(s.wordBits)
    ensures fast == general
  {
    fast := LookupFp(s, root, cptr);
    var r;
    r, general := LookupCap(s, root, cptr);
  }
}
