/** malloc and free of src/bibopmalloc.c over the three kinds of pages.

    What a caller relies on is Room: for every address, how many bytes the caller may
    use there, or -1 if nothing handed out starts there.
 */
module BibopMalloc {
  import opened BibopPages
  import opened BibopBlocks
  import opened BibopSmall

  /** Offset of the data in a run of pages for one large object. */
  const BIG_DATA: nat := 24

  ghost predicate HasObject(b: Bag, off: nat) {
    exists k: nat :: Taken(b, k) && off == Offset(b, k)
  }

  type Bigs = map<nat, nat>
  type Bags = map<nat, Bag>

  ghost function RoomIn(big: Bigs, chain: Chains, bags: Bags, x: Ptr): int {
    if x.page in big then
      if x.off == BIG_DATA then big[x.page] * PAGE_SIZE - BIG_DATA else -1
    else if x.page in chain then
      if x.off >= HEADER then At(chain, Ptr(x.page, x.off - HEADER), true) else -1
    else if x.page in bags && HasObject(bags[x.page], x.off) then bags[x.page].objsize
    else -1
  }

  // ---- who owns a page --------------------------------------------------------------

  ghost predicate BigOk(use: Uses, big: Bigs) {
    && (forall h | h in big :: big[h] > 0)
    && (forall h, q | h in big && h <= q < h + big[h] :: q in use && use[q] == Big)
    && (forall h, g | h in big && g in big && h < g :: h + big[h] <= g)
    && (forall q | q in use && use[q] == Big :: InBig(big, q))
  }

  ghost predicate InBig(big: Bigs, q: int) {
    exists h | h in big :: h <= q < h + big[h]
  }

  ghost predicate KindOk(use: Uses, pages: set<nat>, k: Use) {
    forall p: nat :: p in pages <==> p in use && use[p] == k
  }

  /** Every page is used for one thing, by the one owner that thinks it is. */
  ghost predicate Owned(use: Uses, big: Bigs, medium: set<nat>, small: set<nat>) {
    BigOk(use, big) && KindOk(use, medium, Medium) && KindOk(use, small, Small)
  }

  lemma KindTake(use: Uses, pages: set<nat>, k: Use, p: nat)
    requires KindOk(use, pages, k) && Idle(use, p, 1) && k != Free
    ensures p !in pages && KindOk(Assign(use, p, 1, k), pages + {p}, k)
  {
    hide Assign;
  }

  lemma KindKeep(use: Uses, pages: set<nat>, k: Use, p: nat, n: nat, j: Use)
    requires KindOk(use, pages, k) && j != k && forall q | p <= q < p + n && q in use :: use[q] != k
    ensures KindOk(Assign(use, p, n, j), pages, k)
  {
    hide Assign;
  }

  lemma KindDrop(use: Uses, pages: set<nat>, k: Use, p: nat)
    requires KindOk(use, pages, k) && k != Free
    ensures KindOk(Assign(use, p, 1, Free), pages - {p}, k)
  {
    hide Assign;
  }

  lemma BigKeep(use: Uses, big: Bigs, p: nat, n: nat, j: Use)
    requires BigOk(use, big) && j != Big && forall q | p <= q < p + n && q in use :: use[q] != Big
    ensures BigOk(Assign(use, p, n, j), big)
  {
    hide Assign, InBig;
  }

  lemma InBigMore(big: Bigs, p: nat, n: nat, q: int)
    requires InBig(big, q) && p !in big
    ensures InBig(big[p := n], q)
  {
    var h :| h in big && h <= q < h + big[h];
    assert h in big[p := n];
  }

  lemma InBigLess(big: Bigs, p: nat, q: int)
    requires InBig(big, q) && p in big && !(p <= q < p + big[p])
    ensures InBig(big - {p}, q)
  {
    var h :| h in big && h <= q < h + big[h];
    assert h in big - {p};
  }

  /** Idle pages touch no large run. */
  lemma BigIdle(use: Uses, big: Bigs, p: nat, n: nat)
    requires BigOk(use, big) && Idle(use, p, n) && n > 0
    ensures p !in big && forall h | h in big :: h + big[h] <= p || p + n <= h
  {
    assert p in use ==> use[p] == Free;
    forall h | h in big ensures h + big[h] <= p || p + n <= h {
      assert h in use && use[h] == Big;
    }
  }

  lemma BigTake(use: Uses, big: Bigs, p: nat, n: nat)
    requires BigOk(use, big) && Idle(use, p, n) && n > 0
    ensures p !in big && BigOk(Assign(use, p, n, Big), big[p := n])
  {
    hide Assign, InBig;
    var use', big' := Assign(use, p, n, Big), big[p := n];
    BigIdle(use, big, p, n);
    forall q | q in use' && use'[q] == Big ensures InBig(big', q) {
      if p <= q < p + n { InBigHere(big', p, q); } else { InBigMore(big, p, n, q); }
    }
  }

  lemma InBigHere(big: Bigs, h: nat, q: int)
    requires h in big && h <= q < h + big[h]
    ensures InBig(big, q)
  {
  }

  lemma BigDrop(use: Uses, big: Bigs, p: nat)
    requires BigOk(use, big) && p in big
    ensures BigOk(Assign(use, p, big[p], Free), big - {p})
  {
    hide Assign, InBig;
    var use' := Assign(use, p, big[p], Free);
    forall q | q in use' && use'[q] == Big ensures InBig(big - {p}, q) { InBigLess(big, p, q); }
    forall h, q | h in big - {p} && h <= q < h + big[h] ensures q in use' && use'[q] == Big {
      assert q in use && use[q] == Big;
    }
  }

  // ---- ranges of bytes ----------------------------------------------------------------

  function Address(x: Ptr): nat { x.page * PAGE_SIZE + x.off }

  ghost predicate Apart(x: Ptr, n: int, y: Ptr, m: int) {
    Address(x) + n <= Address(y) || Address(y) + m <= Address(x)
  }

  /** A block's data lies between its header and the next block. */
  lemma BusyAt(c: Chain, off: nat) returns (i: nat)
    requires Tiled(c) && SizeIf(c, off, true) >= 0
    ensures i < |c| - 1 && c[i].off == off && off % ALIGNMENT == 0
    ensures off + HEADER + SizeIf(c, off, true) == c[i + 1].off <= SENTINEL && HEADER <= SizeIf(c, off, true)
  {
    hide IndexOf;
    i := IndexOf(c, off, |c| - 1);
    ObjBounds(c, i);
    assert i + 1 < |c| - 1 ==> c[i + 1].off + BLOCK <= c[|c| - 1].off;
  }

  lemma BusyApart(c: Chain, a: nat, b: nat)
    requires Tiled(c) && SizeIf(c, a, true) >= 0 && SizeIf(c, b, true) >= 0 && a < b
    ensures a + HEADER + SizeIf(c, a, true) <= b
  {
    hide SizeIf;
    var i := BusyAt(c, a);
    var j := BusyAt(c, b);
    assert i < j;
  }

  lemma BagFits(b: Bag)
    requires BagOk(b)
    ensures b.objs % ALIGNMENT == 0 && b.objsize % ALIGNMENT == 0 && b.objs + b.maxobj * b.objsize <= PAGE_SIZE
  {
  }

  lemma Multiple(k: nat, size: nat)
    requires size % ALIGNMENT == 0
    ensures (k * size) % ALIGNMENT == 0
  {
    var m := size / ALIGNMENT;
    assert k * (ALIGNMENT * m) == ALIGNMENT * (k * m);
  }

  lemma ObjectIn(b: Bag, off: nat)
    requires BagOk(b) && HasObject(b, off)
    ensures off + b.objsize <= PAGE_SIZE && off % ALIGNMENT == 0
  {
    BagFits(b);
    hide BagOk;
    var k: nat :| Taken(b, k) && off == Offset(b, k);
    ObjectAt(b, k);
  }

  lemma ObjectAt(b: Bag, k: nat)
    requires b.objs % ALIGNMENT == 0 && b.objsize % ALIGNMENT == 0 && b.objs + b.maxobj * b.objsize <= PAGE_SIZE
    requires Taken(b, k)
    ensures Offset(b, k) + b.objsize <= PAGE_SIZE && Offset(b, k) % ALIGNMENT == 0
  {
    assert k < b.maxobj;
    hide Taken;
    Multiple(k, b.objsize);
    Mono(k + 1, b.maxobj, b.objsize);
    assert (k + 1) * b.objsize == k * b.objsize + b.objsize;
  }

  lemma ObjectsApart(b: Bag, a: nat, c: nat)
    requires BagOk(b) && HasObject(b, a) && HasObject(b, c) && a < c
    ensures a + b.objsize <= c
  {
    hide BagOk, Taken;
    var k: nat :| Taken(b, k) && a == Offset(b, k);
    var n: nat :| Taken(b, n) && c == Offset(b, n);
    if n <= k { Mono(n, k, b.objsize); } else { Mono(k + 1, n, b.objsize); }
  }

  /** What is handed out on a medium or small page is aligned and stays on its page. */
  lemma RoomOnPage(big: Bigs, chain: Chains, bags: Bags, x: Ptr)
    requires x.page !in big && RoomIn(big, chain, bags, x) >= 0
    requires Paved(chain) && forall p | p in bags :: BagOk(bags[p])
    ensures x.off + RoomIn(big, chain, bags, x) <= PAGE_SIZE && x.off % ALIGNMENT == 0
  {
    hide SizeIf, BagOk, HasObject;
    if x.page in chain {
      var i := BusyAt(chain[x.page], x.off - HEADER);
    } else {
      ObjectIn(bags[x.page], x.off);
    }
  }

  /** Two addresses on one medium or small page. */
  lemma SamePageApart(big: Bigs, chain: Chains, bags: Bags, x: Ptr, y: Ptr)
    requires x.page == y.page && x.page !in big && x.off < y.off
    requires RoomIn(big, chain, bags, x) >= 0 && RoomIn(big, chain, bags, y) >= 0
    requires Paved(chain) && forall p | p in bags :: BagOk(bags[p])
    ensures x.off + RoomIn(big, chain, bags, x) <= y.off
  {
    hide SizeIf, BagOk, HasObject;
    if x.page in chain {
      BusyApart(chain[x.page], x.off - HEADER, y.off - HEADER);
    } else {
      ObjectsApart(bags[x.page], x.off, y.off);
    }
  }

  /** Bytes of a medium page that are the allocator's: the page descriptor, block headers,
      free blocks with their links, and the sentinel. */
  ghost predicate MediumOwn(c: Chain, off: nat) {
    off < FIRST || off >= SENTINEL || exists i :: InHeader(c, i, off) || InFree(c, i, off)
  }

  predicate InHeader(c: Chain, i: int, off: nat) { 0 <= i < |c| && c[i].off <= off < c[i].off + HEADER }

  predicate InFree(c: Chain, i: int, off: nat) { 0 <= i < |c| - 1 && !c[i].busy && c[i].off <= off < c[i + 1].off }

  lemma BusyClear(c: Chain, a: nat, off: nat)
    requires Tiled(c) && SizeIf(c, a, true) >= 0 && MediumOwn(c, off)
    ensures off < a + HEADER || a + HEADER + SizeIf(c, a, true) <= off
  {
    var k := BusyAt(c, a);
    assert c[0].off == FIRST && c[|c| - 1].off == SENTINEL;
    SizeBusy(c, a, k);
    hide SizeIf, Aligned, Spaced, InHeader, InFree, Tiled;
    if off < FIRST {
      Spaces(c, 0, k);
    } else if off < SENTINEL {
      var i :| InHeader(c, i, off) || InFree(c, i, off);
      OtherClear(c, k, i, off);
    }
  }

  lemma SizeBusy(c: Chain, a: nat, k: nat)
    requires Tiled(c) && k < |c| - 1 && c[k].off == a && SizeIf(c, a, true) >= 0
    ensures Spaced(c) && c[k].busy && a + HEADER + SizeIf(c, a, true) == c[k + 1].off
  {
    SizeAt(c, k, true);
  }

  lemma OtherClear(c: Chain, k: nat, i: int, off: nat)
    requires Spaced(c) && k < |c| - 1 && c[k].busy && (InHeader(c, i, off) || InFree(c, i, off))
    ensures off < c[k].off + HEADER || c[k + 1].off <= off
  {
    hide Spaced;
    if i < k { Spaces(c, i + 1, k); }
    if k < i { Spaces(c, k + 1, i); }
    if i + 1 < |c| && InHeader(c, i, off) && i != k { HeaderFits(c, i); }
  }

  lemma HeaderFits(c: Chain, i: nat)
    requires Spaced(c) && i + 1 < |c|
    ensures c[i].off + HEADER <= c[i + 1].off
  {
  }

  lemma Spaces(c: Chain, i: nat, j: nat)
    requires Spaced(c) && i < |c| && j < |c|
    ensures i <= j ==> c[i].off <= c[j].off
    ensures j <= i ==> c[j].off <= c[i].off
  {
  }

  lemma ObjectClear(b: Bag, off: nat)
    requires HasObject(b, off)
    ensures b.objs <= off
  {
  }

  /** A page with something of its own is not in the large run at h, or is its first page. */
  lemma OneOwner(use: Uses, big: Bigs, medium: set<nat>, small: set<nat>, h: nat, p: nat)
    requires Owned(use, big, medium, small) && h in big
    requires (p in use && use[p] == Free) || p in big || p in medium || p in small
    ensures p < h || h + big[h] <= p || (p == h && p !in medium && p !in small && use[p] == Big)
  {
    assert h in use && use[h] == Big;
  }

  lemma OneUse(use: Uses, big: Bigs, medium: set<nat>, small: set<nat>, p: nat)
    requires Owned(use, big, medium, small) && (p in medium || p in small)
    ensures p in use && use[p] != Free && p !in big && (p in medium <==> p !in small)
  {
    NotBig(use, big, medium, small, p);
  }

  /** A page that is not in any large run, seen from one. */
  lemma BigApart(use: Uses, big: Bigs, medium: set<nat>, small: set<nat>, h: nat, p: nat)
    requires Owned(use, big, medium, small) && h in big && h != p && (p in big || p in medium || p in small)
    ensures p < h || h + big[h] <= p
  {
  }

  /** An unsigned int is below this. */
  const UNSIGNED: nat := 0x1_0000_0000

  /** CEIL. */
  function Rounded(size: nat): nat { (size + ALIGNMENT - 1) / ALIGNMENT * ALIGNMENT }

  lemma CutDown(n: nat)
    requires n % ALIGNMENT == 0
    ensures n % UNSIGNED % ALIGNMENT == 0 && (n < UNSIGNED ==> n % UNSIGNED == n)
    ensures n >= UNSIGNED ==> n % UNSIGNED + UNSIGNED <= n
  {
    var q := n / UNSIGNED;
    assert n == UNSIGNED * q + n % UNSIGNED;
    assert UNSIGNED * q == ALIGNMENT * (UNSIGNED / ALIGNMENT * q);
    assert n >= UNSIGNED ==> q >= 1;
  }

  /** The pages a large request takes. */
  function PagesFor(size: nat): nat { (size + DESCR + PAGE_SIZE - 1) / PAGE_SIZE }

  /** No free block is large enough. */
  ghost predicate NoBlock(sizes: Sizes, size: nat) { forall x | x in sizes :: sizes[x] < size }

  /** The block at x is free and large enough, and on the lowest list that has such a one. */
  ghost predicate Fitting(sizes: Sizes, maxsize: seq<nat>, x: Ptr, size: nat) {
    x in sizes && size <= sizes[x]
    && forall y | y in sizes && size <= sizes[y] :: Bucket(maxsize, sizes[x]) <= Bucket(maxsize, sizes[y])
  }

  /** No page for objects of the size has a free one. */
  ghost predicate NoObject(bags: Bags, size: nat) {
    forall p | p in bags && bags[p].objsize == size :: bags[p].objfree == 0
  }

  /** The room that a request gets: exact for small and large ones, and for those in between
      more by at most what is not worth splitting off. */
  predicate Served(size: nat, room: int) {
    var n := Rounded(size);
    var m := n % UNSIGNED;
    if n < SMALL_SIZE then room == n
    else if m > MAX_MEDIUM then room == PagesFor(m) * PAGE_SIZE - BIG_DATA
    else m <= room <= m + SIZE_SLOP
  }

  class Allocator {
    const pages: PageStore
    const blocks: BlockStore
    const small: SmallStore
    var big: Bigs
    var firstpage: seq<nat>
    var pBig: int
    var pAlloc: int
    var pBibop: int

    ghost predicate Valid()
      reads this, pages, blocks, small
    {
      Steady() && blocks.Clean()
    }

    /** Valid but for medium pages that hold no busy block. */
    ghost predicate Steady()
      reads this, pages, blocks, small
    {
      && pages.Valid() && pages.Counted() && blocks.Valid() && small.Valid()
      && Owned(pages.use, big, blocks.chain.Keys, small.bags.Keys)
      && Counts()
      && Distinct(firstpage) && forall p :: p in firstpage <==> p in blocks.chain
    }

    ghost predicate Counts()
      reads this, pages
    {
      pBig == Count(pages.use, Big) && pAlloc == Count(pages.use, Medium) && pBibop == Count(pages.use, Small)
    }

    ghost function Room(x: Ptr): int
      reads this, blocks, small
    {
      RoomIn(big, blocks.chain, small.bags, x)
    }

    constructor (start: nat, limits: seq<nat>)
      requires Limits(limits)
      ensures Valid() && fresh(pages) && fresh(blocks) && fresh(small) && forall x :: Room(x) == -1
    {
      pages := new PageStore(start);
      blocks := new BlockStore(limits);
      small := new SmallStore();
      big, firstpage := map[], [];
      pBig, pAlloc, pBibop := 0, 0, 0;
    }

    /** No page is lost or counted twice. */
    lemma PagesConserved()
      requires Valid()
      ensures pBibop + pAlloc + pBig + pages.pFree == pages.nextPage - pages.first
    {
      hide Span, Of, Owned, Coalesced;
      Conserved(pages.use);
      SpanSize(pages.first, pages.nextPage - pages.first);
      assert |pages.use| == |pages.use.Keys|;
    }

    /** What is handed out never overlaps. */
    lemma RoomsApart(x: Ptr, y: Ptr)
      requires Valid() && Room(x) >= 0 && Room(y) >= 0 && x != y
      ensures Apart(x, Room(x), y, Room(y))
    {
      hide RoomIn, BagOk, Paved, Counts, Owned, BigOk, KindOk, Span, Coalesced;
      RoomKind(x);
      RoomKind(y);
      if x.page == y.page {
        if x.page !in big {
          if x.off < y.off {
            SamePageApart(big, blocks.chain, small.bags, x, y);
          } else {
            SamePageApart(big, blocks.chain, small.bags, y, x);
          }
        }
      } else {
        if x.page in big { BigApart(pages.use, big, blocks.chain.Keys, small.bags.Keys, x.page, y.page); }
        if y.page in big { BigApart(pages.use, big, blocks.chain.Keys, small.bags.Keys, y.page, x.page); }
      }
    }

    /** A byte that the allocator keeps for itself: on a free page, in a page descriptor or
        bitmap, or on a medium page outside the data of busy blocks. */
    ghost predicate OwnByte(p: nat, off: nat)
      reads this, pages, blocks, small
    {
      && off < PAGE_SIZE
      && (|| (p in pages.use && pages.use[p].Free?)
          || (p in big && off < BIG_DATA)
          || (p in blocks.chain && MediumOwn(blocks.chain[p], off))
          || (p in small.bags && off < small.bags[p].objs))
    }

    /** What is handed out never meets what the allocator keeps for itself. */
    lemma RoomClear(x: Ptr, p: nat, off: nat)
      requires Valid() && Room(x) >= 0 && OwnByte(p, off)
      ensures var b := Address(Ptr(p, off)); b < Address(x) || Address(x) + Room(x) <= b
    {
      hide RoomIn, BagOk, Paved, Counts, Span, Coalesced, MediumOwn;
      RoomKind(x);
      if x.page in big {
        OneOwner(pages.use, big, blocks.chain.Keys, small.bags.Keys, x.page, p);
      } else if p == x.page {
        OneUse(pages.use, big, blocks.chain.Keys, small.bags.Keys, p);
        OnPageClear(x, off);
      }
    }

    lemma OnPageClear(x: Ptr, off: nat)
      requires blocks.Valid() && small.Valid() && Room(x) >= 0 && x.page !in big && off < PAGE_SIZE
      requires x.page in blocks.chain ==> x.page !in small.bags && MediumOwn(blocks.chain[x.page], off)
      requires x.page in small.bags ==> off < small.bags[x.page].objs
      ensures off < x.off || x.off + Room(x) <= off
    {
      hide SizeIf, BagOk, HasObject, MediumOwn;
      if x.page in blocks.chain {
        BusyClear(blocks.chain[x.page], x.off - HEADER, off);
      } else {
        ObjectClear(small.bags[x.page], x.off);
      }
    }

    /** What is handed out is aligned, and on pages that are not free. */
    lemma RoomKind(x: Ptr)
      requires Valid() && Room(x) >= 0
      ensures x.off % ALIGNMENT == 0
      ensures x.page in big || x.page in blocks.chain || x.page in small.bags
      ensures x.page in big ==> x.off == BIG_DATA && Room(x) == big[x.page] * PAGE_SIZE - BIG_DATA
      ensures x.page !in big ==> x.off + Room(x) <= PAGE_SIZE
    {
      hide SizeIf, BagOk, HasObject, Paved, Owned, Counts;
      if x.page !in big { RoomOnPage(big, blocks.chain, small.bags, x); }
    }

    /** An object or block for the request is at hand, without any page being got. */
    ghost predicate AtHand(size: nat)
      reads this, blocks, small
    {
      var n := Rounded(size);
      if n < SMALL_SIZE then !NoObject(small.bags, n)
      else n % UNSIGNED <= MAX_MEDIUM && !NoBlock(blocks.sizes, n % UNSIGNED)
    }

    /** Free pages for it are at hand. */
    ghost predicate PagesAtHand(size: nat)
      reads this, pages
    {
      var n := Rounded(size);
      !NoFit(pages.free, if n >= SMALL_SIZE && n % UNSIGNED > MAX_MEDIUM then PagesFor(n % UNSIGNED) else 1)
    }

    /** The request is more than a medium page holds. */
    method MallocBig(size: nat, granted: bool) returns (r: Maybe<Ptr>)
      requires Valid()
      modifies this, pages
      ensures Valid()
      ensures r.None? <==> !granted && old(NoFit(pages.free, PagesFor(size)))
      ensures r.None? ==> forall y :: Room(y) == old(Room(y))
      ensures r.Some? ==>
                && old(Room(r.value)) == -1 && Room(r.value) == PagesFor(size) * PAGE_SIZE - BIG_DATA >= size
                && forall y | y != r.value :: Room(y) == old(Room(y))
    {
      hide Span, Of, Count, Coalesced, Tracks, BigOk, KindOk, At, HasObject, BagOk, Moved, Member, NoFit;
      var n := (size + DESCR + PAGE_SIZE - 1) / PAGE_SIZE;
      var p := pages.Pages(n, granted, Big);
      if p.None? { return None; }
      TakenBig(old(pages.use), big, blocks.chain.Keys, small.bags.Keys, p.value, n);
      pBig := pBig + n;
      big := big[p.value := n];
      CountsOf(old(pages.use), pages.use, Big, n);
      r := Some(Ptr(p.value, BIG_DATA));
    }

    method NewMediumPage(granted: bool) returns (p: Maybe<nat>)
      requires Valid()
      modifies this, pages, blocks
      ensures Steady() && forall y :: Room(y) == old(Room(y))
      ensures p.None? <==> !granted && old(NoFit(pages.free, 1))
      ensures p.None? ==> Valid()
      ensures p.Some? ==> Ptr(p.value, FIRST) in blocks.sizes && blocks.sizes[Ptr(p.value, FIRST)] == LARGEST
      ensures p.Some? ==> forall q | q in blocks.chain && q != p.value :: Occupied(blocks.chain[q])
    {
      hide Span, Of, Count, Coalesced, Tracks, BigOk, KindOk, At, HasObject, BagOk, Moved, Member;
      hide Matches, Limits, Paved, Listed, Idle, NoFit;
      p := pages.Pages(1, granted, Medium);
      if p.None? { return; }
      TakenMedium(old(pages.use), big, blocks.chain.Keys, small.bags.Keys, p.value);
      CountsOf(old(pages.use), pages.use, Medium, 1);
      pAlloc := pAlloc + 1;
      blocks.InitAllocPage(p.value);
      firstpage := [p.value] + firstpage;
      EmptyRoom(big, old(blocks.chain), small.bags, p.value);
      assert blocks.chain.Keys == old(blocks.chain).Keys + {p.value};
    }

    /** The request goes to a block on a medium page. */
    method MallocMedium(size: nat, granted: bool) returns (r: Maybe<Ptr>)
      requires Valid() && size <= MAX_MEDIUM && size % ALIGNMENT == 0
      modifies this, pages, blocks
      ensures Valid()
      ensures r.None? <==> !granted && old(NoBlock(blocks.sizes, size)) && old(NoFit(pages.free, 1))
      ensures r.None? ==> forall y :: Room(y) == old(Room(y))
      ensures r.Some? ==>
                && old(Room(r.value)) == -1 && size <= Room(r.value) <= size + SIZE_SLOP
                && forall y | y != r.value :: Room(y) == old(Room(y))
      ensures !old(NoBlock(blocks.sizes, size)) ==>
                && pages.use == old(pages.use) && HEADER <= r.value.off
                && Fitting(old(blocks.sizes), blocks.maxsize, Ptr(r.value.page, r.value.off - HEADER), size)
    {
      hide Span, Of, Count, Coalesced, Tracks, BigOk, KindOk, At, HasObject, BagOk, Member, RoomIn;
      hide Limits, Paved, Listed, Idle, Matches, NoFit;
      var x := blocks.FindBlock(size);
      if x.None? {
        var p := NewMediumPage(granted);
        if p.None? { return None; }
        x := Some(Ptr(p.value, FIRST));
      }
      r := CarveBlock(x.value, size);
    }

    method CarveBlock(x: Ptr, size: nat) returns (r: Maybe<Ptr>)
      requires Steady() && x in blocks.sizes && size <= blocks.sizes[x] && size % ALIGNMENT == 0
      requires forall q | q in blocks.chain && q != x.page :: Occupied(blocks.chain[q])
      modifies blocks
      ensures Valid() && r == Some(Ptr(x.page, x.off + HEADER))
      ensures old(Room(r.value)) == -1 && size <= Room(r.value) <= size + SIZE_SLOP
      ensures forall y | y != r.value :: Room(y) == old(Room(y))
    {
      hide Span, Of, Count, Coalesced, Tracks, BigOk, KindOk, At, HasObject, BagOk, Member, RoomIn;
      hide Limits, Paved, Listed, Idle, Matches, Occupied;
      FreeRoom(pages.use, big, blocks.chain, blocks.sizes, small.bags, x);
      blocks.Carve(x, size);
      CarvedRoom(pages.use, big, old(blocks.chain), blocks.chain, small.bags, x);
      NotBig(pages.use, big, blocks.chain.Keys, small.bags.Keys, x.page);
      r := Some(Ptr(x.page, x.off + HEADER));
    }

    /** The request goes to a small page. */
    method MallocSmall(size: nat, granted: bool) returns (r: Maybe<Ptr>)
      requires Valid() && SmallSize(size)
      modifies this, pages, small
      ensures Valid()
      ensures r.None? <==> !granted && old(NoObject(small.bags, size)) && old(NoFit(pages.free, 1))
      ensures r.None? ==> forall y :: Room(y) == old(Room(y))
      ensures r.Some? ==>
                && old(Room(r.value)) == -1 && Room(r.value) == size
                && forall y | y != r.value :: Room(y) == old(Room(y))
      ensures !old(NoObject(small.bags, size)) ==> pages.use == old(pages.use)
    {
      hide Span, Of, Count, Coalesced, Tracks, BigOk, KindOk, At, HasObject, BagOk, Member, RoomIn;
      hide Limits, Paved, Listed, Idle, Matches, Occupied, NoFit;
      var p := small.FindBag(size);
      if p.None? {
        p := NewSmallPage(size, granted);
        if p.None? { return None; }
      }
      var q := TakeSmall(p.value);
      r := Some(q);
    }

    method NewSmallPage(size: nat, granted: bool) returns (p: Maybe<nat>)
      requires Valid() && SmallSize(size)
      modifies this, pages, small
      ensures Valid() && forall y :: Room(y) == old(Room(y))
      ensures p.None? <==> !granted && old(NoFit(pages.free, 1))
      ensures p.Some? ==>
                && p.value in small.bags && small.bags[p.value].objsize == size
                && small.bags[p.value].objfree > 0
    {
      hide Span, Of, Count, Coalesced, Tracks, BigOk, KindOk, At, HasObject, BagOk, Moved, Member, RoomIn;
      hide Matches, Limits, Paved, Listed, Idle, Occupied, Taken, NoFit;
      p := pages.Pages(1, granted, Small);
      if p.None? { return; }
      TakenSmall(old(pages.use), big, blocks.chain.Keys, small.bags.Keys, p.value);
      CountsOf(old(pages.use), pages.use, Small, 1);
      pBibop := pBibop + 1;
      small.NewBibop(p.value, size);
      FullRoom(big, blocks.chain, old(small.bags), small.bags, p.value);
    }

    method TakeSmall(p: nat) returns (x: Ptr)
      requires Valid() && p in small.bags && small.bags[p].objfree > 0
      modifies small
      ensures Valid()
      ensures old(Room(x)) == -1 && old(small.bags)[p].objsize == Room(x)
                && forall y | y != x :: Room(y) == old(Room(y))
    {
      hide Span, Of, Count, Coalesced, Tracks, BigOk, KindOk, At, HasObject, BagOk, Member, RoomIn;
      hide Limits, Paved, Listed, Idle, Matches, Occupied, Taken, Offset;
      var k := small.TakeObject(p);
      x := Ptr(p, Offset(small.bags[p], k));
      NotBig(pages.use, big, blocks.chain.Keys, old(small.bags).Keys, p);
      BagSize(small.bags[p]);
      TakenRoom(big, blocks.chain, old(small.bags), small.bags, p, k);
    }

    /** bigmalloc. */
    method BigMalloc(size: nat, granted: bool) returns (r: Maybe<Ptr>)
      requires Valid() && size % ALIGNMENT == 0
      modifies this, pages, blocks
      ensures Valid()
      ensures r.None? <==> if size > MAX_MEDIUM then !granted && old(NoFit(pages.free, PagesFor(size)))
                           else !granted && old(NoBlock(blocks.sizes, size)) && old(NoFit(pages.free, 1))
      ensures r.None? ==> forall y :: Room(y) == old(Room(y))
      ensures r.Some? ==> old(Room(r.value)) == -1 && forall y | y != r.value :: Room(y) == old(Room(y))
      ensures r.Some? ==> if size > MAX_MEDIUM then Room(r.value) == PagesFor(size) * PAGE_SIZE - BIG_DATA >= size
                          else size <= Room(r.value) <= size + SIZE_SLOP
      ensures size <= MAX_MEDIUM && !old(NoBlock(blocks.sizes, size)) ==> pages.use == old(pages.use)
    {
      hide RoomIn, Owned, Counts, BagOk, Occupied, Distinct, Coalesced, Tracks, Span, Count;
      hide Paved, Limits, Matches, Listed, NoFit, NoBlock;
      if size > MAX_MEDIUM { r := MallocBig(size, granted); } else { r := MallocMedium(size, granted); }
    }

    /** malloc: room where nothing was, and nothing else touched.  A request is rounded up,
        and a large one is cut to 32 bits; the room is enough for the request exactly if
        that loses nothing.  It fails exactly if nothing is at hand and memory is refused, and
        gets no page if an object or block is at hand. */
    method Malloc(size: nat, granted: bool) returns (r: Maybe<Ptr>)
      requires Valid() && size > 0
      modifies this, pages, blocks, small
      ensures Valid()
      ensures r.None? <==> !granted && !old(AtHand(size)) && !old(PagesAtHand(size))
      ensures r.None? ==> forall y :: Room(y) == old(Room(y))
      ensures r.Some? ==> old(Room(r.value)) == -1 && forall y | y != r.value :: Room(y) == old(Room(y))
      ensures r.Some? ==> Served(size, Room(r.value)) && (size <= Room(r.value) <==> Rounded(size) < UNSIGNED)
      ensures old(AtHand(size)) ==> pages.use == old(pages.use)
    {
      hide RoomIn, Owned, Counts, BagOk, Occupied, Distinct, Coalesced, Tracks, Span, Count;
      hide Paved, Limits, Matches, Listed, NoFit, NoBlock, NoObject;
      var n := Rounded(size);
      if n >= SMALL_SIZE {
        CutDown(n);
        r := BigMalloc(n % UNSIGNED, granted);
      } else {
        r := MallocSmall(n, granted);
      }
    }

    method FreeBig(x: Ptr)
      requires Valid() && x.page in big && Room(x) >= 0
      modifies this, pages
      ensures Valid() && Room(x) == -1 && forall y | y != x :: Room(y) == old(Room(y))
    {
      hide Span, Of, Count, Coalesced, Tracks, BigOk, KindOk, At, HasObject, BagOk, Member, Idle, Moved;
      var p, n := x.page, big[x.page];
      GivenBack(pages.use, big, blocks.chain.Keys, small.bags.Keys, p);
      pages.InsertFreePage(p, n);
      big := big - {p};
      pBig := pBig - n;
      pages.pFree := pages.pFree + n;
    }

    method FreeMedium(x: Ptr)
      requires Valid() && x.page !in big && x.page in blocks.chain && Room(x) >= 0
      modifies this, pages, blocks
      ensures Valid() && Room(x) == -1 && forall y | y != x :: Room(y) == old(Room(y))
    {
      hide Span, Of, Count, Coalesced, Tracks, BigOk, KindOk, At, HasObject, BagOk, Member, Idle;
      hide Matches, Limits, Paved, Listed, Occupied;
      blocks.Release(Ptr(x.page, x.off - HEADER));
      CarvedRoom(pages.use, big, old(blocks.chain), blocks.chain, small.bags, Ptr(x.page, x.off - HEADER));
      if |blocks.chain[x.page]| == 2 {
        GiveUpPage(x.page);
      } else {
        assert Occupied(blocks.chain[x.page]) by { ManyBlocks(blocks.chain[x.page]); }
      }
    }

    /** A wholly free medium page goes back to the page layer. */
    method GiveUpPage(p: nat)
      requires Steady() && p in blocks.chain && !Occupied(blocks.chain[p])
      requires forall q | q in blocks.chain && q != p :: Occupied(blocks.chain[q])
      modifies this, pages, blocks
      ensures Valid() && forall y :: Room(y) == old(Room(y))
    {
      hide Span, Of, Count, Coalesced, Tracks, BigOk, KindOk, At, HasObject, BagOk, Member, Idle, RoomIn;
      hide Matches, Limits, Paved, Listed, Occupied;
      NotBig(pages.use, big, blocks.chain.Keys, small.bags.Keys, p);
      blocks.DropPage(p);
      firstpage := UnlinkPage(firstpage, p);
      assert blocks.chain.Keys == old(blocks.chain).Keys - {p};
      ReturnPage(p, old(blocks.chain).Keys, small.bags.Keys);
      DroppedRoom(big, old(blocks.chain), small.bags, p);
    }

    method ReturnPage(p: nat, ghost medium: set<nat>, ghost smalls: set<nat>)
      requires pages.Valid() && pages.Counted() && Counts() && Owned(pages.use, big, medium, smalls) && p in medium
      modifies this`pAlloc, pages
      ensures pages.Valid() && pages.Counted() && Counts() && Owned(pages.use, big, medium - {p}, smalls)
    {
      hide Span, Of, Count, Coalesced, Tracks, Owned, Member;
      GivenBackMedium(pages.use, big, medium, smalls, p);
      pages.InsertFreePage(p, 1);
      pages.pFree := pages.pFree + 1;
      pAlloc := pAlloc - 1;
    }

    method FreeSmall(x: Ptr)
      requires Valid() && x.page !in big && x.page !in blocks.chain && x.page in small.bags && Room(x) >= 0
      modifies small
      ensures Valid() && Room(x) == -1 && forall y | y != x :: Room(y) == old(Room(y))
    {
      hide Span, Of, Count, Coalesced, Tracks, BigOk, KindOk, At, BagOk, Member, Idle;
      hide Matches, Limits, Paved, Listed, Occupied, Taken, Offset;
      small.PutObject(x.page, x.off);
      PutRoom(big, blocks.chain, old(small.bags), small.bags, x);
    }

    /** free: the room at x is gone, and nothing else touched. */
    method Free(x: Maybe<Ptr>)
      requires Valid() && (x.Some? ==> Room(x.value) >= 0)
      modifies this, pages, blocks, small
      ensures Valid()
      ensures x.Some? ==> Room(x.value) == -1
      ensures forall y | x != Some(y) :: Room(y) == old(Room(y))
    {
      hide RoomIn, Owned, Counts, BagOk, Occupied, Distinct, Coalesced, Tracks, Span, Count;
      hide Paved, Limits, Matches, Listed;
      if x.None? { return; }
      RoomKind(x.value);
      if x.value.page in big {
        FreeBig(x.value);
      } else if x.value.page in blocks.chain {
        FreeMedium(x.value);
      } else {
        FreeSmall(x.value);
      }
    }
  }

  lemma ManyBlocks(c: Chain)
    requires |c| != 2
    ensures Occupied(c)
  {
  }

  method UnlinkPage(l: seq<nat>, p: nat) returns (r: seq<nat>)
    requires Distinct(l) && p in l
    ensures Distinct(r) && forall q :: q in r <==> q in l && q != p
  {
    var i := 0;
    while l[i] != p
      invariant i < |l| && p !in l[..i]
      decreases |l| - i
    {
      i := i + 1;
      assert p in l[..i] + l[i..];
    }
    r := l[..i] + l[i + 1..];
    assert l == l[..i] + [p] + l[i + 1..];
  }

  lemma GivenBack(use: Uses, big: Bigs, medium: set<nat>, small: set<nat>, p: nat)
    requires Owned(use, big, medium, small) && p in big
    ensures big[p] > 0 && forall q | p <= q < p + big[p] :: q in use && use[q] == Big
    ensures var use' := Assign(use, p, big[p], Free);
            && Owned(use', big - {p}, medium, small) && p !in medium && p !in small
            && Count(use', Free) == Count(use, Free) + big[p] && Count(use', Big) == Count(use, Big) - big[p]
            && Count(use', Medium) == Count(use, Medium) && Count(use', Small) == Count(use, Small)
  {
    hide Assign, Count;
    BigDrop(use, big, p);
    KindKeep(use, medium, Medium, p, big[p], Free);
    KindKeep(use, small, Small, p, big[p], Free);
    CountMove(use, p, big[p], Big, Free);
  }

  lemma GivenBackMedium(use: Uses, big: Bigs, medium: set<nat>, small: set<nat>, p: nat)
    requires Owned(use, big, medium, small) && p in medium
    ensures p in use && use[p] == Medium
    ensures var use' := Assign(use, p, 1, Free);
            && Owned(use', big, medium - {p}, small)
            && Count(use', Free) == Count(use, Free) + 1 && Count(use', Medium) == Count(use, Medium) - 1
            && Count(use', Big) == Count(use, Big) && Count(use', Small) == Count(use, Small)
  {
    hide Assign, Count;
    BigKeep(use, big, p, 1, Free);
    KindDrop(use, medium, Medium, p);
    KindKeep(use, small, Small, p, 1, Free);
    CountMove(use, p, 1, Medium, Free);
  }

  lemma DroppedRoom(big: Bigs, chain: Chains, bags: Bags, p: nat)
    requires p in chain && p !in big && p !in bags
    requires forall y :: At(chain - {p}, y, true) == At(chain, y, true)
    ensures forall y :: RoomIn(big, chain - {p}, bags, y) == RoomIn(big, chain, bags, y)
  {
    hide SizeIf, HasObject;
    forall y ensures RoomIn(big, chain - {p}, bags, y) == RoomIn(big, chain, bags, y) {
      if y.page == p && y.off >= HEADER { assert At(chain - {p}, Ptr(p, y.off - HEADER), true) == -1; }
    }
  }

  lemma PutRoom(big: Bigs, chain: Chains, bags: Bags, bags': Bags, x: Ptr)
    requires x.page !in big && x.page !in chain && x.page in bags && bags'.Keys == bags.Keys
    requires forall q | q in bags && q != x.page :: bags'[q] == bags[q]
    requires bags'[x.page].objs == bags[x.page].objs && bags'[x.page].objsize == bags[x.page].objsize
    requires forall n :: Taken(bags'[x.page], n) <==> Taken(bags[x.page], n) && x.off != Offset(bags'[x.page], n)
    ensures RoomIn(big, chain, bags', x) == -1
    ensures forall y | y != x :: RoomIn(big, chain, bags', y) == RoomIn(big, chain, bags, y)
  {
    hide At, HasObject;
    var b, b' := bags[x.page], bags'[x.page];
    forall off ensures HasObject(b', off) <==> off != x.off && HasObject(b, off) { OneLess(b, b', x.off, off); }
    forall y | y != x ensures RoomIn(big, chain, bags', y) == RoomIn(big, chain, bags, y) {
      assert y.page == x.page ==> y.off != x.off;
    }
  }

  lemma OneLess(b: Bag, b': Bag, gone: nat, off: nat)
    requires b'.objs == b.objs && b'.objsize == b.objsize
    requires forall n :: Taken(b', n) <==> Taken(b, n) && gone != Offset(b', n)
    ensures HasObject(b', off) <==> off != gone && HasObject(b, off)
  {
    hide Taken;
    if HasObject(b, off) && off != gone {
      var n: nat :| Taken(b, n) && off == Offset(b, n);
      assert Taken(b', n) && off == Offset(b', n);
    }
    if HasObject(b', off) {
      var n: nat :| Taken(b', n) && off == Offset(b', n);
      assert Taken(b, n) && off == Offset(b, n);
    }
  }

  lemma TakenSmall(use: Uses, big: Bigs, medium: set<nat>, small: set<nat>, p: nat)
    requires Owned(use, big, medium, small) && Idle(use, p, 1)
    ensures p !in big && p !in medium && p !in small
    ensures Owned(Assign(use, p, 1, Small), big, medium, small + {p})
  {
    hide Assign;
    BigIdle(use, big, p, 1);
    BigKeep(use, big, p, 1, Small);
    KindTake(use, small, Small, p);
    KindKeep(use, medium, Medium, p, 1, Small);
  }

  lemma FullRoom(big: Bigs, chain: Chains, bags: Bags, bags': Bags, p: nat)
    requires p !in big && p !in chain && p !in bags && bags'.Keys == bags.Keys + {p} && forall k :: !Taken(bags'[p], k)
    requires forall q | q in bags :: bags'[q] == bags[q]
    ensures forall y :: RoomIn(big, chain, bags', y) == RoomIn(big, chain, bags, y)
  {
    hide At, Taken;
  }

  lemma TakenRoom(big: Bigs, chain: Chains, bags: Bags, bags': Bags, p: nat, k: nat)
    requires p !in big && p !in chain && p in bags && bags'.Keys == bags.Keys
    requires forall q | q in bags && q != p :: bags'[q] == bags[q]
    requires bags'[p].objs == bags[p].objs && bags'[p].objsize == bags[p].objsize && bags[p].objsize > 0
    requires !Taken(bags[p], k) && forall n :: Taken(bags'[p], n) <==> n == k || Taken(bags[p], n)
    ensures var x := Ptr(p, Offset(bags'[p], k));
            && RoomIn(big, chain, bags, x) == -1 && RoomIn(big, chain, bags', x) == bags[p].objsize
            && forall y | y != x :: RoomIn(big, chain, bags', y) == RoomIn(big, chain, bags, y)
  {
    hide At, Taken, HasObject;
    var x := Ptr(p, Offset(bags'[p], k));
    forall off ensures HasObject(bags'[p], off) <==> off == x.off || HasObject(bags[p], off) {
      OneMore(bags[p], bags'[p], k, off);
    }
    NotTakenYet(bags[p], k);
    SameOffset(bags'[p], bags[p], k);
    forall y | y != x ensures RoomIn(big, chain, bags', y) == RoomIn(big, chain, bags, y) {
      assert y.page == p ==> y.off != x.off;
    }
  }

  lemma OneMore(b: Bag, b': Bag, k: nat, off: nat)
    requires b'.objs == b.objs && b'.objsize == b.objsize && forall n :: Taken(b', n) <==> n == k || Taken(b, n)
    ensures HasObject(b', off) <==> off == Offset(b', k) || HasObject(b, off)
  {
    hide Taken;
    if off == Offset(b', k) { assert Taken(b', k); }
    if HasObject(b, off) {
      var n: nat :| Taken(b, n) && off == Offset(b, n);
      assert Taken(b', n) && off == Offset(b', n);
    }
    if HasObject(b', off) && off != Offset(b', k) {
      var n: nat :| Taken(b', n) && off == Offset(b', n);
      assert Taken(b, n) && off == Offset(b, n);
    }
  }

  lemma NotTakenYet(b: Bag, k: nat)
    requires b.objsize > 0 && !Taken(b, k)
    ensures !HasObject(b, Offset(b, k))
  {
    hide Taken, Offset;
    forall n: nat | Taken(b, n) ensures Offset(b, k) != Offset(b, n) { OffsetIndex(b, k, n); }
  }

  lemma TakenMedium(use: Uses, big: Bigs, medium: set<nat>, small: set<nat>, p: nat)
    requires Owned(use, big, medium, small) && Idle(use, p, 1)
    ensures p !in big && p !in medium && p !in small
    ensures Owned(Assign(use, p, 1, Medium), big, medium + {p}, small)
  {
    hide Assign;
    BigIdle(use, big, p, 1);
    BigKeep(use, big, p, 1, Medium);
    KindTake(use, medium, Medium, p);
    KindKeep(use, small, Small, p, 1, Medium);
  }

  lemma EmptyRoom(big: Bigs, chain: Chains, bags: Bags, p: nat)
    requires p !in chain && p !in big && p !in bags
    ensures forall y :: RoomIn(big, chain[p := [Block(FIRST, false), Block(SENTINEL, false)]], bags, y)
              == RoomIn(big, chain, bags, y)
  {
    hide HasObject;
  }

  /** Nothing is handed out at a free block. */
  lemma FreeRoom(use: Uses, big: Bigs, chain: Chains, sizes: Sizes, bags: Bags, x: Ptr)
    requires Owned(use, big, chain.Keys, bags.Keys) && Matches(chain, sizes) && x in sizes
    ensures RoomIn(big, chain, bags, Ptr(x.page, x.off + HEADER)) == -1
  {
    hide IndexOf, HasObject;
    MatchAt(chain, sizes, x);
    NotBig(use, big, chain.Keys, bags.Keys, x.page);
  }

  lemma NotBig(use: Uses, big: Bigs, medium: set<nat>, small: set<nat>, p: nat)
    requires Owned(use, big, medium, small) && (p in medium || p in small)
    ensures p !in big && (p in medium <==> p !in small)
  {
    assert p in use && use[p] != Big;
  }

  lemma CarvedRoom(use: Uses, big: Bigs, chain: Chains, chain': Chains, bags: Bags, x: Ptr)
    requires Owned(use, big, chain.Keys, bags.Keys) && chain'.Keys == chain.Keys && x.page in chain
    requires forall y | y != x :: At(chain', y, true) == At(chain, y, true)
    ensures var z := Ptr(x.page, x.off + HEADER);
            && RoomIn(big, chain', bags, z) == At(chain', x, true)
            && forall y | y != z :: RoomIn(big, chain', bags, y) == RoomIn(big, chain, bags, y)
  {
    hide At, HasObject, BigOk, KindOk;
    NotBig(use, big, chain.Keys, bags.Keys, x.page);
    var z := Ptr(x.page, x.off + HEADER);
    forall y | y != z ensures RoomIn(big, chain', bags, y) == RoomIn(big, chain, bags, y) {
      if y.off >= HEADER { assert Ptr(y.page, y.off - HEADER) != x; }
    }
  }

  lemma TakenBig(use: Uses, big: Bigs, medium: set<nat>, small: set<nat>, p: nat, n: nat)
    requires Owned(use, big, medium, small) && Idle(use, p, n) && n > 0
    ensures p !in big && p !in medium && p !in small
    ensures Owned(Assign(use, p, n, Big), big[p := n], medium, small)
  {
    hide Assign, BigOk;
    BigTake(use, big, p, n);
    KindKeep(use, medium, Medium, p, n, Big);
    KindKeep(use, small, Small, p, n, Big);
  }

  lemma CountsOf(use: Uses, use': Uses, k: Use, n: nat)
    requires Moved(use, use', k, n)
    ensures forall j | j != Free :: Count(use', j) == Count(use, j) + if j == k then n else 0
  {
    hide Count;
  }
}
