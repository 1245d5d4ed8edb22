/** Medium-sized blocks of the allocator (src/bibopmalloc.c).

    A medium page is tiled by a chain of blocks up to a sentinel.  Free blocks hang in
    lists segregated by size.  Offsets and sizes are those of a 64-bit machine.
 */
module BibopBlocks {
  import opened BibopPages

  const PAGE_SIZE: nat := 0x8000
  const ALIGNMENT: nat := 8
  /** Offset of the first block in a page, of the data in a block, and a block's own size. */
  const FIRST: nat := 16
  const HEADER: nat := 16
  const BLOCK: nat := 32
  /** A free block is split only if more than this is left over. */
  const SIZE_SLOP: nat := 56
  const NFREE: nat := 20
  const SENTINEL: nat := PAGE_SIZE - BLOCK
  /** What fits on an empty page; only requests up to MAX_MEDIUM are put on one. */
  const LARGEST: nat := SENTINEL - FIRST - HEADER
  const MAX_MEDIUM: nat := PAGE_SIZE - 56 - ALIGNMENT - 8

  datatype Ptr = Ptr(page: nat, off: nat)

  datatype Block = Block(off: nat, busy: bool)

  type Chain = seq<Block>

  /** The blocks tile the page from the first block to the sentinel. */
  ghost predicate Tiled(c: Chain) {
    && |c| >= 2 && c[0].off == FIRST && c[|c| - 1] == Block(SENTINEL, false)
    && Spaced(c) && Aligned(c)
  }

  ghost predicate Spaced(c: Chain) {
    forall i, j | 0 <= i < j < |c| :: c[i].off + BLOCK <= c[j].off
  }

  ghost predicate Aligned(c: Chain) {
    forall i | 0 <= i < |c| :: c[i].off % ALIGNMENT == 0
  }

  /** Blocks k and k + 1 are not both free. */
  predicate Calm(c: Chain, k: int)
    requires 0 <= k < |c| - 2
  {
    c[k].busy || c[k + 1].busy
  }

  function ObjSize(c: Chain, i: int): int
    requires 0 <= i < |c| - 1
  {
    c[i + 1].off - c[i].off - HEADER
  }

  function IndexOf(c: Chain, off: nat, n: nat): (r: int)
    requires n <= |c|
    ensures -1 <= r < n
    ensures r >= 0 ==> c[r].off == off
    ensures r < 0 ==> forall k | 0 <= k < n :: c[k].off != off
  {
    if n == 0 then -1 else if c[n - 1].off == off then n - 1 else IndexOf(c, off, n - 1)
  }

  /** The size of the block at an offset if it is busy, or if it is free; -1 otherwise. */
  function SizeIf(c: Chain, off: nat, busy: bool): (r: int) {
    if c == [] then -1 else
    var i := IndexOf(c, off, |c| - 1);
    if i >= 0 && c[i].busy == busy then ObjSize(c, i) else -1
  }

  lemma SizeAt(c: Chain, i: nat, busy: bool)
    requires Tiled(c) && i < |c| - 1
    ensures IndexOf(c, c[i].off, |c| - 1) == i
    ensures SizeIf(c, c[i].off, busy) == if c[i].busy == busy then ObjSize(c, i) else -1
  {
  }

  // ---- the three ways a chain changes -----------------------------------------

  /** Block i cut in two: size bytes of it busy, the rest a new free block. */
  function Split(c: Chain, i: nat, size: nat): (r: Chain)
    requires i < |c| - 1
    ensures |r| == |c| + 1 && r[i] == Block(c[i].off, true) && r[i + 1] == Block(c[i].off + size + BLOCK, false)
    ensures forall k | 0 <= k < i :: r[k] == c[k]
    ensures forall k | i + 1 < k < |r| :: r[k] == c[k - 1]
  {
    c[..i] + [Block(c[i].off, true), Block(c[i].off + size + BLOCK, false)] + c[i + 1..]
  }

  function Mark(c: Chain, i: nat, busy: bool): (r: Chain)
    requires i < |c|
    ensures |r| == |c| && r[i] == Block(c[i].off, busy) && forall k | 0 <= k < |c| && k != i :: r[k] == c[k]
  {
    c[i := Block(c[i].off, busy)]
  }

  /** Block i swallows the next one. */
  function Merge(c: Chain, i: nat): (r: Chain)
    requires i + 1 < |c|
    ensures |r| == |c| - 1
    ensures forall k | 0 <= k <= i :: r[k] == c[k]
    ensures forall k | i < k < |r| :: r[k] == c[k + 1]
  {
    c[..i + 1] + c[i + 2..]
  }

  lemma SplitTiled(c: Chain, i: nat, size: nat)
    requires Tiled(c) && i < |c| - 1 && size % ALIGNMENT == 0 && size + SIZE_SLOP < ObjSize(c, i)
    ensures Tiled(Split(c, i, size))
  {
    hide Split, Spaced, Aligned;
    SplitSpaced(c, i, size);
    SplitAligned(c, i, size);
  }

  lemma SplitSpaced(c: Chain, i: nat, size: nat)
    requires Spaced(c) && i < |c| - 1 && size + SIZE_SLOP < ObjSize(c, i)
    ensures Spaced(Split(c, i, size))
  {
    hide Split;
    assert forall k | i < k < |c| :: c[i + 1].off <= c[k].off;
  }

  lemma SplitAligned(c: Chain, i: nat, size: nat)
    requires Aligned(c) && i < |c| - 1 && size % ALIGNMENT == 0
    ensures Aligned(Split(c, i, size))
  {
    hide Split;
  }

  lemma MarkTiled(c: Chain, i: nat, busy: bool)
    requires Tiled(c) && i < |c| - 1
    ensures Tiled(Mark(c, i, busy))
  {
    hide Mark;
  }

  lemma MergeTiled(c: Chain, i: nat)
    requires Tiled(c) && i < |c| - 2
    ensures Tiled(Merge(c, i))
  {
    hide Merge;
    assert Spaced(Merge(c, i));
  }

  lemma SplitIndex(c: Chain, i: nat, size: nat, off: nat)
    requires Tiled(c) && i < |c| - 1 && size % ALIGNMENT == 0 && size + SIZE_SLOP < ObjSize(c, i)
    ensures var r := Split(c, i, size); var k := IndexOf(c, off, |c| - 1);
            && IndexOf(r, off, |r| - 1)
                == (if off == c[i].off + size + BLOCK then i + 1 else if k <= i then k else k + 1)
            && (off == c[i].off + size + BLOCK ==> k == -1)
  {
    hide Split, IndexOf, Aligned;
    SplitTiled(c, i, size);
    var r := Split(c, i, size);
    var k, j := IndexOf(c, off, |c| - 1), IndexOf(r, off, |r| - 1);
    assert r[i + 1].off == c[i].off + size + BLOCK;
    if k >= 0 { assert r[if k <= i then k else k + 1].off == off; }
    if j >= 0 && j != i + 1 { assert c[if j <= i then j else j - 1].off == off; }
  }

  /** What each change does to the sizes of the busy and of the free blocks. */
  lemma SplitSizes(c: Chain, i: nat, size: nat, off: nat)
    requires Tiled(c) && i < |c| - 1 && !c[i].busy && size % ALIGNMENT == 0 && size + SIZE_SLOP < ObjSize(c, i)
    ensures SizeIf(Split(c, i, size), off, true) == if off == c[i].off then size + HEADER else SizeIf(c, off, true)
    ensures SizeIf(Split(c, i, size), off, false)
         == if off == c[i].off then -1 else if off == c[i].off + size + BLOCK then ObjSize(c, i) - size - BLOCK
             else SizeIf(c, off, false)
  {
    hide Split, IndexOf, Aligned, Spaced;
    SplitIndex(c, i, size, off);
    SizeAt(c, i, false);
  }

  lemma MarkSizes(c: Chain, i: nat, busy: bool, off: nat)
    requires Tiled(c) && i < |c| - 1
    ensures SizeIf(Mark(c, i, busy), off, busy) == if off == c[i].off then ObjSize(c, i) else SizeIf(c, off, busy)
    ensures SizeIf(Mark(c, i, busy), off, !busy) == if off == c[i].off then -1 else SizeIf(c, off, !busy)
  {
    hide Mark, IndexOf, Aligned;
    MarkTiled(c, i, busy);
    var r := Mark(c, i, busy);
    var k, j := IndexOf(c, off, |c| - 1), IndexOf(r, off, |r| - 1);
    assert r[i].off == c[i].off;
    if k >= 0 { assert r[k].off == off; }
    if j >= 0 { assert c[j].off == off; }
  }

  lemma MergeIndex(c: Chain, i: nat, off: nat)
    requires Tiled(c) && i < |c| - 2
    ensures var r := Merge(c, i); var k := IndexOf(c, off, |c| - 1);
            IndexOf(r, off, |r| - 1) == if k <= i then k else if k == i + 1 then -1 else k - 1
  {
    hide Merge, IndexOf, Aligned;
    MergeTiled(c, i);
    var r := Merge(c, i);
    var k, j := IndexOf(c, off, |c| - 1), IndexOf(r, off, |r| - 1);
    if k >= 0 && k != i + 1 { assert r[if k <= i then k else k - 1].off == off; }
    if j >= 0 { assert c[if j <= i then j else j + 1].off == off; }
  }

  lemma MergeSizes(c: Chain, i: nat, off: nat)
    requires Tiled(c) && i < |c| - 2 && !c[i].busy && !c[i + 1].busy
    ensures SizeIf(Merge(c, i), off, true) == SizeIf(c, off, true)
    ensures SizeIf(Merge(c, i), off, false)
         == if off == c[i].off then ObjSize(c, i) + HEADER + ObjSize(c, i + 1)
            else if off == c[i + 1].off then -1 else SizeIf(c, off, false)
  {
    hide Merge, IndexOf, Aligned, Spaced;
    MergeIndex(c, i, off);
    SizeAt(c, i, false);
    SizeAt(c, i + 1, false);
  }

  // ---- neighbours ---------------------------------------------------------------

  ghost predicate Quiet(c: Chain) {
    forall k | 0 <= k < |c| - 2 :: Calm(c, k)
  }

  /** Some block of the page is busy. */
  predicate Occupied(c: Chain) {
    |c| == 2 ==> c[0].busy
  }

  lemma SplitQuiet(c: Chain, i: nat, size: nat)
    requires Quiet(c) && i < |c| - 1 && !c[i].busy
    ensures Quiet(Split(c, i, size)) && (|c| >= 2 ==> Occupied(Split(c, i, size)))
  {
    hide Split;
    var r := Split(c, i, size);
    forall k | 0 <= k < |r| - 2 ensures Calm(r, k) {
      if k == i + 1 {
        assert Calm(c, i);
      } else if k < i - 1 {
        assert Calm(c, k);
      } else if k > i + 1 {
        assert Calm(c, k - 1);
      }
    }
  }

  lemma MarkQuiet(c: Chain, i: nat)
    requires Quiet(c) && i < |c| - 1
    ensures Quiet(Mark(c, i, true)) && Occupied(Mark(c, i, true))
  {
    hide Mark;
    var r := Mark(c, i, true);
    forall k | 0 <= k < |r| - 2 ensures Calm(r, k) { assert Calm(c, k); }
  }

  /** Calm everywhere but right behind block i and one further. */
  ghost predicate QuietBut(c: Chain, i: nat) {
    forall k | 0 <= k < |c| - 2 && k != i && k != i + 1 :: Calm(c, k)
  }

  lemma MergeQuiet(c: Chain, i: nat)
    requires QuietBut(c, i) && i < |c| - 2
    ensures QuietBut(Merge(c, i), i)
  {
    hide Merge;
    var r := Merge(c, i);
    forall k | 0 <= k < |r| - 2 && k != i && k != i + 1 ensures Calm(r, k) {
      assert Calm(c, if k < i then k else k + 1);
    }
  }

  // ---- the free lists -------------------------------------------------------------

  type Sizes = map<Ptr, nat>

  function Get(sizes: Sizes, x: Ptr): int { if x in sizes then sizes[x] else -1 }

  /** The first list whose limit is above s. */
  function Bucket(maxsize: seq<nat>, s: int): (b: nat)
    ensures b <= |maxsize|
    ensures forall k | 0 <= k < b :: maxsize[k] <= s
    ensures b < |maxsize| ==> s < maxsize[b]
  {
    if maxsize == [] || s < maxsize[0] then 0 else
    var b := 1 + Bucket(maxsize[1..], s);
    assert forall k | 1 <= k < b :: maxsize[k] == maxsize[1..][k - 1];
    b
  }

  function Drop<T(==, !new)>(l: seq<T>, x: T): (r: seq<T>)
    ensures forall y :: y in r <==> y in l && y != x
  {
    if l == [] then [] else if l[0] == x then Drop(l[1..], x) else [l[0]] + Drop(l[1..], x)
  }

  ghost predicate Distinct<T(!new)>(l: seq<T>) {
    forall i, j | 0 <= i < j < |l| :: l[i] != l[j]
  }

  lemma {:induction false} DropDistinct<T(!new)>(l: seq<T>, x: T)
    requires Distinct(l)
    ensures Distinct(Drop(l, x))
  {
    if l != [] {
      DropDistinct(l[1..], x);
      assert l[0] !in l[1..];
    }
  }

  /** List b: each free block of its sizes, once. */
  ghost predicate ListOk(l: seq<Ptr>, sizes: Sizes, maxsize: seq<nat>, b: nat) {
    Distinct(l) && forall x :: x in l <==> x in sizes && Bucket(maxsize, sizes[x]) == b
  }

  ghost predicate Listed(heads: seq<seq<Ptr>>, sizes: Sizes, maxsize: seq<nat>) {
    |heads| == |maxsize| && forall b | 0 <= b < |heads| :: ListOk(heads[b], sizes, maxsize, b)
  }

  lemma LinkOk(heads: seq<seq<Ptr>>, sizes: Sizes, maxsize: seq<nat>, x: Ptr, s: nat)
    requires Listed(heads, sizes, maxsize) && x !in sizes && Bucket(maxsize, s) < |maxsize|
    ensures var b := Bucket(maxsize, s); Listed(heads[b := [x] + heads[b]], sizes[x := s], maxsize)
  {
    hide Bucket;
    var b := Bucket(maxsize, s);
    var heads' := heads[b := [x] + heads[b]];
    forall k | 0 <= k < |heads| ensures ListOk(heads'[k], sizes[x := s], maxsize, k) {
      assert ListOk(heads[k], sizes, maxsize, k);
    }
  }

  function Unlinked(heads: seq<seq<Ptr>>, x: Ptr): (r: seq<seq<Ptr>>)
    ensures |r| == |heads| && forall b | 0 <= b < |heads| :: r[b] == Drop(heads[b], x)
  {
    seq(|heads|, b requires 0 <= b < |heads| => Drop(heads[b], x))
  }

  lemma UnlinkOk(heads: seq<seq<Ptr>>, sizes: Sizes, maxsize: seq<nat>, x: Ptr)
    requires Listed(heads, sizes, maxsize)
    ensures Listed(Unlinked(heads, x), sizes - {x}, maxsize)
  {
    hide Bucket, Unlinked;
    forall b | 0 <= b < |heads| ensures ListOk(Drop(heads[b], x), sizes - {x}, maxsize, b) {
      assert ListOk(heads[b], sizes, maxsize, b);
      DropDistinct(heads[b], x);
    }
  }

  // ---- all medium pages -----------------------------------------------------------

  type Chains = map<nat, Chain>

  function At(chain: Chains, x: Ptr, busy: bool): int {
    if x.page in chain then SizeIf(chain[x.page], x.off, busy) else -1
  }

  /** sizes holds the free blocks, with their sizes. */
  ghost predicate Matches(chain: Chains, sizes: Sizes) {
    forall x :: Get(sizes, x) == At(chain, x, false)
  }

  /** Every page is tiled and nowhere are two neighbours free. */
  ghost predicate Paved(chain: Chains) {
    forall p | p in chain :: Tiled(chain[p]) && Quiet(chain[p])
  }

  /** One page changes, and sizes with it. */
  lemma MatchPage(chain: Chains, sizes: Sizes, p: nat, c: Chain, sizes': Sizes)
    requires Matches(chain, sizes)
    requires forall off :: Get(sizes', Ptr(p, off)) == SizeIf(c, off, false)
    requires forall x: Ptr | x.page != p :: Get(sizes', x) == Get(sizes, x)
    ensures Matches(chain[p := c], sizes')
  {
    hide Get, SizeIf;
    forall x ensures Get(sizes', x) == At(chain[p := c], x, false) {
      assert x == Ptr(x.page, x.off);
      assert Get(sizes, x) == At(chain, x, false);
    }
  }

  lemma MatchAt(chain: Chains, sizes: Sizes, x: Ptr)
    requires Matches(chain, sizes)
    ensures Get(sizes, x) == At(chain, x, false)
  {
  }

  /** The limits of the lists are arbitrary, but the last is above the largest block. */
  ghost predicate Limits(maxsize: seq<nat>) {
    |maxsize| == NFREE && LARGEST < maxsize[NFREE - 1]
  }

  /** Every block has a list. */
  lemma SomeBucket(maxsize: seq<nat>, s: nat)
    requires Limits(maxsize) && s <= LARGEST
    ensures Bucket(maxsize, s) < NFREE
  {
  }

  lemma SizeBounds(c: Chain, off: nat, busy: bool)
    requires Tiled(c)
    ensures SizeIf(c, off, busy) == -1 || HEADER <= SizeIf(c, off, busy) <= LARGEST
  {
    hide IndexOf;
    var i := IndexOf(c, off, |c| - 1);
    if i >= 0 { ObjBounds(c, i); }
  }

  lemma ObjBounds(c: Chain, i: nat)
    requires Tiled(c) && i < |c| - 1
    ensures HEADER <= ObjSize(c, i) <= LARGEST
  {
    assert c[i].off + BLOCK <= c[i + 1].off;
    assert i > 0 ==> c[0].off + BLOCK <= c[i].off;
    assert i + 1 < |c| - 1 ==> c[i + 1].off + BLOCK <= c[|c| - 1].off;
  }

  class BlockStore {
    const maxsize: seq<nat>
    var chain: Chains
    var heads: seq<seq<Ptr>>
    ghost var sizes: Sizes

    ghost predicate Valid()
      reads this
    {
      Limits(maxsize) && Paved(chain) && Matches(chain, sizes) && Listed(heads, sizes, maxsize)
    }

    /** No page is without a busy block. */
    ghost predicate Clean()
      reads this
    {
      forall p | p in chain :: Occupied(chain[p])
    }

    constructor (limits: seq<nat>)
      requires Limits(limits)
      ensures Valid() && Clean() && chain == map[] && maxsize == limits
    {
      maxsize := limits;
      chain := map[];
      heads := seq(NFREE, _ => []);
      sizes := map[];
    }

    /** insfree: a block of size s goes to the front of its list. */
    method InsFree(x: Ptr, s: nat)
      requires Listed(heads, sizes, maxsize) && x !in sizes && Limits(maxsize) && s <= LARGEST
      modifies this`heads, this`sizes
      ensures Listed(heads, sizes, maxsize) && sizes == old(sizes)[x := s]
    {
      hide ListOk;
      var i := 0;
      while i < NFREE && maxsize[i] <= s
        invariant i <= NFREE && forall k | 0 <= k < i :: maxsize[k] <= s
      {
        i := i + 1;
      }
      SomeBucket(maxsize, s);
      assert i == Bucket(maxsize, s);
      LinkOk(heads, sizes, maxsize, x, s);
      heads := heads[i := [x] + heads[i]];
      sizes := sizes[x := s];
    }

    /** FDEL: a block leaves the list it is on. */
    method FDel(x: Ptr)
      requires Listed(heads, sizes, maxsize)
      modifies this`heads, this`sizes
      ensures Listed(heads, sizes, maxsize) && sizes == old(sizes) - {x}
    {
      hide ListOk, Unlinked;
      UnlinkOk(heads, sizes, maxsize, x);
      heads := Unlinked(heads, x);
      sizes := sizes - {x};
    }

    /** init_allocpage: the page becomes one free block. */
    method InitAllocPage(p: nat)
      requires Valid() && p !in chain
      modifies this
      ensures Valid() && chain == old(chain)[p := [Block(FIRST, false), Block(SENTINEL, false)]]
      ensures sizes == old(sizes)[Ptr(p, FIRST) := LARGEST]
    {
      hide Listed, Matches, Quiet, Limits;
      var c := [Block(FIRST, false), Block(SENTINEL, false)];
      MatchAt(chain, sizes, Ptr(p, FIRST));
      EmptyPage(chain, sizes, p);
      chain := chain[p := c];
      InsFree(Ptr(p, FIRST), LARGEST);
    }

    /** The free block's place in its page. */
    method Locate(x: Ptr) returns (i: nat)
      requires Valid() && x in sizes
      ensures x.page in chain && Tiled(chain[x.page]) && Quiet(chain[x.page]) && i < |chain[x.page]| - 1
      ensures chain[x.page][i] == Block(x.off, false) && ObjSize(chain[x.page], i) == sizes[x]
    {
      hide Listed, Quiet, Limits, IndexOf;
      MatchAt(chain, sizes, x);
      i := IndexOf(chain[x.page], x.off, |chain[x.page]| - 1);
    }

    /** First fit in list b. */
    method Scan(b: nat, size: nat) returns (r: Maybe<Ptr>)
      requires Valid() && b < NFREE
      ensures r.None? ==> forall x | x in heads[b] && x in sizes :: sizes[x] < size
      ensures r.Some? ==> r.value in heads[b] && r.value in sizes && size <= sizes[r.value]
    {
      hide Paved, Matches;
      var k := 0;
      assert ListOk(heads[b], sizes, maxsize, b);
      while k < |heads[b]|
        invariant k <= |heads[b]| && forall j | 0 <= j < k :: heads[b][j] in sizes && sizes[heads[b][j]] < size
      {
        var x := heads[b][k];
        assert x in heads[b];
        var i := Locate(x);
        if ObjSize(chain[x.page], i) >= size { return Some(x); }
        k := k + 1;
      }
      r := None;
    }

    /** The search of bigmalloc: it misses no block that is large enough. */
    method FindBlock(size: nat) returns (r: Maybe<Ptr>)
      requires Valid()
      ensures r.None? <==> forall x | x in sizes :: sizes[x] < size
      ensures r.Some? ==> r.value in sizes && size <= sizes[r.value]
      ensures r.Some? ==> forall y | y in sizes && size <= sizes[y] ::
                Bucket(maxsize, sizes[r.value]) <= Bucket(maxsize, sizes[y])
    {
      hide Paved, Matches, Bucket;
      var i := 0;
      while i < NFREE
        invariant i <= NFREE && forall x | x in sizes && Bucket(maxsize, sizes[x]) < i :: sizes[x] < size
      {
        assert ListOk(heads[i], sizes, maxsize, i);
        if maxsize[i] > size {
          r := Scan(i, size);
          if r.Some? { return; }
        }
        i := i + 1;
      }
      forall x | x in sizes ensures Bucket(maxsize, sizes[x]) < NFREE {
        MatchAt(chain, sizes, x);
        FreeBounds(chain, x);
        SomeBucket(maxsize, sizes[x]);
      }
      r := None;
    }

    /** The end of bigmalloc: the block is taken, the rest of it split off if worth it, so
        that little is wasted. */
    method Carve(x: Ptr, size: nat)
      requires Valid() && x in sizes && size <= sizes[x] && size % ALIGNMENT == 0
      modifies this
      ensures Valid() && chain.Keys == old(chain).Keys && x.page in chain && Occupied(chain[x.page])
      ensures forall p | p in chain && p != x.page :: chain[p] == old(chain)[p]
      ensures size <= At(chain, x, true) && forall y | y != x :: At(chain, y, true) == At(old(chain), y, true)
      ensures var whole := old(sizes)[x];
              if size + SIZE_SLOP < whole then
                && At(chain, x, true) == size + HEADER
                && sizes == (old(sizes) - {x})[Ptr(x.page, x.off + size + BLOCK) := whole - size - BLOCK]
              else At(chain, x, true) == whole && sizes == old(sizes) - {x}
      ensures At(chain, x, true) <= size + SIZE_SLOP
    {
      hide Listed, Matches, Quiet, Limits, IndexOf, Tiled, Split, Mark, SizeIf;
      var i := Locate(x);
      var p, c := x.page, chain[x.page];
      FDel(x);
      if size + SIZE_SLOP < ObjSize(c, i) {
        var next := Ptr(p, x.off + size + BLOCK);
        CarveSplit(chain, old(sizes), x, i, size);
        chain := chain[p := Split(c, i, size)];
        InsFree(next, ObjSize(Split(c, i, size), i + 1));
      } else {
        CarveWhole(chain, old(sizes), x, i);
        chain := chain[p := Mark(c, i, true)];
      }
    }

    /** All but that page p may still have free neighbours behind its block i. */
    ghost predicate Joining(p: nat, i: nat)
      reads this
    {
      && Limits(maxsize) && Matches(chain, sizes) && Listed(heads, sizes, maxsize)
      && p in chain && Tiled(chain[p]) && QuietBut(chain[p], i) && Paved(chain - {p})
      && i < |chain[p]| - 1 && !chain[p][i].busy
    }

    /** free, on a medium page: the block is free and joined with free neighbours. */
    method Release(x: Ptr)
      requires Valid() && At(chain, x, true) >= 0
      modifies this
      ensures Valid() && chain.Keys == old(chain).Keys
      ensures forall p | p in chain && p != x.page :: chain[p] == old(chain)[p]
      ensures At(chain, x, true) == -1 && forall y | y != x :: At(chain, y, true) == At(old(chain), y, true)
      ensures x.page in chain && (|chain[x.page]| == 2 ==> !Occupied(chain[x.page]))
    {
      hide Listed, Matches, Quiet, QuietBut, Limits, IndexOf, Tiled, Mark, Merge;
      var p, c := x.page, chain[x.page];
      var here := IndexOf(c, x.off, |c| - 1);
      FreedPage(chain, sizes, x, here);
      chain := chain[p := Mark(c, here, false)];
      InsFree(x, ObjSize(c, here));
      c := chain[p];
      var cur := 0;
      while !(cur == here || (cur + 1 == here && !c[cur].busy))
        invariant cur <= here
        invariant cur == here && cur > 0 ==> c[cur - 1].busy
        decreases here - cur
      {
        cur := cur + 1;
      }
      FreedQuiet(old(chain)[p], here, cur);
      assert chain - {p} == old(chain) - {p};
      Coalesce(p, cur);
    }

    /** The joining loop of free. */
    method Coalesce(p: nat, cur: nat)
      requires Joining(p, cur)
      modifies this
      ensures Valid() && chain.Keys == old(chain).Keys
      ensures forall q | q in chain && q != p :: chain[q] == old(chain)[q]
      ensures forall y :: At(chain, y, true) == At(old(chain), y, true)
      ensures p in chain && (|chain[p]| == 2 ==> !Occupied(chain[p]))
    {
      hide Listed, Matches, Quiet, QuietBut, Limits, Tiled, Merge, At, ObjSize;
      while cur + 1 < |chain[p]| - 1 && !chain[p][cur + 1].busy
        invariant Joining(p, cur) && chain.Keys == old(chain).Keys && chain - {p} == old(chain) - {p}
        invariant forall y :: At(chain, y, true) == At(old(chain), y, true)
        decreases |chain[p]|
      {
        JoinOnce(p, cur);
      }
      CoalescedPage(chain, p, cur);
      forall q | q in chain && q != p ensures chain[q] == old(chain)[q] {
        assert (chain - {p})[q] == (old(chain) - {p})[q];
      }
    }

    method JoinOnce(p: nat, cur: nat)
      requires Joining(p, cur) && cur + 1 < |chain[p]| - 1 && !chain[p][cur + 1].busy
      modifies this
      ensures Joining(p, cur) && chain == old(chain)[p := Merge(old(chain)[p], cur)]
      ensures forall y :: At(chain, y, true) == At(old(chain), y, true)
    {
      hide Listed, Matches, QuietBut, Quiet, Limits, Tiled, Merge, At, ObjSize;
      var c := chain[p];
      var here, next := Ptr(p, c[cur].off), Ptr(p, c[cur + 1].off);
      MergedPage(chain, sizes, p, cur);
      assert chain[p := Merge(c, cur)] - {p} == chain - {p};
      chain := chain[p := Merge(c, cur)];
      FDel(here);
      FDel(next);
      InsFree(here, ObjSize(Merge(c, cur), cur));
    }

    /** Taking a block and giving it back leaves every page exactly as it was. */
    method CarveAndRelease(x: Ptr, size: nat)
      requires Valid() && x in sizes && size <= sizes[x] && size % ALIGNMENT == 0
      modifies this
      ensures Valid() && chain == old(chain)
    {
      hide Listed, Limits, Tiled, Quiet, Matches, SizeIf;
      MatchAt(chain, sizes, x);
      NotBusy(chain, x);
      ghost var c := chain;
      Carve(x, size);
      Release(x);
      SamePages(c, chain, x.page);
    }

    /** A page that is one free block is given up. */
    method DropPage(p: nat)
      requires Valid() && p in chain && !Occupied(chain[p])
      modifies this
      ensures Valid() && chain == old(chain) - {p}
      ensures forall y :: At(chain, y, true) == At(old(chain), y, true)
    {
      hide Listed, Quiet, Limits;
      DroppedPage(chain, sizes, p);
      FDel(Ptr(p, FIRST));
      chain := chain - {p};
    }
  }

  lemma NotBusy(chain: Chains, x: Ptr)
    requires At(chain, x, false) >= 0
    ensures At(chain, x, true) == -1
  {
    hide IndexOf;
  }

  lemma SamePages(c: Chains, d: Chains, p: nat)
    requires Paved(c) && Paved(d) && c.Keys == d.Keys && p in c
    requires forall q | q in d && q != p :: d[q] == c[q]
    requires forall y :: At(c, y, true) == At(d, y, true)
    ensures c == d
  {
    hide Tiled, Quiet, SizeIf;
    forall off ensures SizeIf(c[p], off, true) == SizeIf(d[p], off, true) {
      assert At(c, Ptr(p, off), true) == At(d, Ptr(p, off), true);
    }
    OneTiling(c[p], d[p]);
  }

  lemma DroppedPage(chain: Chains, sizes: Sizes, p: nat)
    requires Paved(chain) && Matches(chain, sizes) && p in chain && !Occupied(chain[p])
    ensures Matches(chain - {p}, sizes - {Ptr(p, FIRST)})
    ensures forall y :: At(chain - {p}, y, true) == At(chain, y, true)
  {
    var c := chain[p];
    forall off, busy | busy || off != FIRST ensures SizeIf(c, off, busy) == -1 {
      var i := IndexOf(c, off, |c| - 1);
    }
    forall x ensures Get(sizes - {Ptr(p, FIRST)}, x) == At(chain - {p}, x, false) {
      hide SizeIf;
      MatchAt(chain, sizes, x);
      assert x == Ptr(x.page, x.off);
    }
  }

  // ---- a page is determined by its busy blocks ------------------------------------

  ghost predicate SameBusy(c: Chain, d: Chain) {
    forall off :: SizeIf(c, off, true) == SizeIf(d, off, true)
  }

  /** If c and d agree on block i they agree on where the next one starts. */
  lemma NextNotBefore(c: Chain, d: Chain, i: nat)
    requires Tiled(c) && Tiled(d) && Quiet(c) && SameBusy(c, d)
    requires i < |c| - 1 && i < |d| - 1 && c[i] == d[i]
    ensures d[i + 1].off <= c[i + 1].off
  {
    hide IndexOf, SizeIf;
    SizeAt(c, i, true);
    SizeAt(d, i, true);
    if !c[i].busy && c[i + 1].off < d[i + 1].off {
      assert Spaced(d);
      assert d[i + 1].off <= SENTINEL;
      assert Calm(c, i);
      SizeAt(c, i + 1, true);
      SizeBounds(c, c[i + 1].off, true);
      NotInside(d, i, c[i + 1].off);
    }
  }

  lemma NotInside(d: Chain, i: nat, off: nat)
    requires Tiled(d) && i < |d| - 1 && d[i].off < off < d[i + 1].off
    ensures SizeIf(d, off, true) == -1
  {
    hide IndexOf;
    var k := IndexOf(d, off, |d| - 1);
    assert forall j | i < j < |d| :: d[i + 1].off <= d[j].off;
  }

  lemma {:induction false} SameUpTo(c: Chain, d: Chain, i: nat)
    requires Tiled(c) && Tiled(d) && Quiet(c) && Quiet(d) && SameBusy(c, d) && i < |c|
    ensures i < |d| && c[i] == d[i] && (i == |c| - 1 <==> i == |d| - 1)
  {
    hide IndexOf, SizeIf, Quiet, SameBusy;
    if i > 0 {
      SameUpTo(c, d, i - 1);
      NextNotBefore(c, d, i - 1);
      assert SameBusy(d, c) by { BusySymmetric(c, d); }
      NextNotBefore(d, c, i - 1);
    }
    SameKind(c, d, i);
  }

  lemma BusySymmetric(c: Chain, d: Chain)
    requires SameBusy(c, d)
    ensures SameBusy(d, c)
  {
  }

  lemma SameKind(c: Chain, d: Chain, i: nat)
    requires Tiled(c) && Tiled(d) && SameBusy(c, d) && i < |c| && i < |d| && c[i].off == d[i].off
    ensures c[i] == d[i] && (i == |c| - 1 <==> i == |d| - 1)
  {
    hide IndexOf, SizeIf;
    if i < |c| - 1 {
      assert c[i].off + BLOCK <= c[|c| - 1].off;
      assert i < |d| - 1;
      SizeAt(c, i, true);
      SizeAt(d, i, true);
      SizeBounds(c, c[i].off, true);
      SizeBounds(d, c[i].off, true);
      assert c[i].off + BLOCK <= c[i + 1].off && d[i].off + BLOCK <= d[i + 1].off;
    }
  }

  /** A tiling without free neighbours is determined by its busy blocks. */
  lemma OneTiling(c: Chain, d: Chain)
    requires Tiled(c) && Tiled(d) && Quiet(c) && Quiet(d) && SameBusy(c, d)
    ensures c == d
  {
    hide Tiled, Quiet, SameBusy;
    assert |c| >= 2 && |d| >= 2 by { TwoBlocks(c); TwoBlocks(d); }
    forall i | 0 <= i < |c| ensures i < |d| && c[i] == d[i] { SameUpTo(c, d, i); }
    SameUpTo(c, d, |c| - 1);
  }

  lemma TwoBlocks(c: Chain)
    requires Tiled(c)
    ensures |c| >= 2
  {
  }

  lemma FreedPage(chain: Chains, sizes: Sizes, x: Ptr, i: int)
    requires Paved(chain) && Matches(chain, sizes) && At(chain, x, true) >= 0
    requires i == IndexOf(chain[x.page], x.off, |chain[x.page]| - 1)
    ensures i >= 0 && x !in sizes && Tiled(chain[x.page]) && 0 <= ObjSize(chain[x.page], i) <= LARGEST
    ensures var c' := Mark(chain[x.page], i, false); var chain' := chain[x.page := c'];
            && Tiled(c') && Matches(chain', sizes[x := ObjSize(chain[x.page], i)])
            && At(chain', x, true) == -1 && forall y | y != x :: At(chain', y, true) == At(chain, y, true)
  {
    hide Matches, Mark, Tiled, Quiet;
    var p, c := x.page, chain[x.page];
    var c' := Mark(c, i, false);
    MarkTiled(c, i, false);
    MatchAt(chain, sizes, x);
    SizeBounds(c, x.off, true);
    var sizes' := sizes[x := ObjSize(c, i)];
    forall off ensures Get(sizes', Ptr(p, off)) == SizeIf(c', off, false) {
      hide SizeIf;
      MarkSizes(c, i, false, off);
      MatchAt(chain, sizes, Ptr(p, off));
    }
    MatchPage(chain, sizes, p, c', sizes');
    forall off | off != x.off ensures SizeIf(c', off, true) == SizeIf(c, off, true) { MarkSizes(c, i, false, off); }
    BusyElsewhere(chain, p, c', x);
    MarkSizes(c, i, false, x.off);
  }

  lemma FreedQuiet(c: Chain, i: nat, cur: nat)
    requires Tiled(c) && Quiet(c) && i < |c| - 1
    requires cur == i || cur + 1 == i
    requires cur == i && i > 0 ==> c[i - 1].busy
    ensures QuietBut(Mark(c, i, false), cur)
  {
    hide Mark;
    var r := Mark(c, i, false);
    forall k | 0 <= k < |r| - 2 && k != cur && k != cur + 1 ensures Calm(r, k) { assert Calm(c, k); }
  }

  lemma CoalescedPage(chain: Chains, p: nat, cur: nat)
    requires p in chain && Tiled(chain[p]) && QuietBut(chain[p], cur) && Paved(chain - {p}) && cur < |chain[p]| - 1
    requires cur + 1 < |chain[p]| - 1 ==> chain[p][cur + 1].busy
    ensures Paved(chain)
  {
    hide Tiled;
    forall q | q in chain && q != p ensures Tiled(chain[q]) && Quiet(chain[q]) { assert q in chain - {p}; }
  }

  lemma MergedPage(chain: Chains, sizes: Sizes, p: nat, i: nat)
    requires Matches(chain, sizes) && p in chain && Tiled(chain[p]) && QuietBut(chain[p], i)
    requires i + 1 < |chain[p]| - 1 && !chain[p][i].busy && !chain[p][i + 1].busy
    ensures var c := chain[p]; var c' := Merge(c, i); var x, y := Ptr(p, c[i].off), Ptr(p, c[i + 1].off);
            && Tiled(c') && QuietBut(c', i) && 0 <= ObjSize(c', i) <= LARGEST && x !in sizes - {x} - {y}
            && Matches(chain[p := c'], (sizes - {x} - {y})[x := ObjSize(c', i)])
            && forall z :: At(chain[p := c'], z, true) == At(chain, z, true)
  {
    hide Matches, Merge, Tiled, QuietBut, SizeIf;
    var c := chain[p];
    var c' := Merge(c, i);
    var x, y := Ptr(p, c[i].off), Ptr(p, c[i + 1].off);
    MergeTiled(c, i);
    MergeQuiet(c, i);
    ObjBounds(c', i);
    var s: nat := ObjSize(c', i);
    var sizes' := (sizes - {x} - {y})[x := s];
    forall off
      ensures Get(sizes', Ptr(p, off)) == SizeIf(c', off, false) && SizeIf(c', off, true) == SizeIf(c, off, true)
    {
      MergeSizes(c, i, off);
      MatchAt(chain, sizes, Ptr(p, off));
    }
    MatchPage(chain, sizes, p, c', sizes');
  }

  lemma FreeBounds(chain: Chains, x: Ptr)
    requires Paved(chain)
    ensures At(chain, x, false) == -1 || HEADER <= At(chain, x, false) <= LARGEST
  {
    hide SizeIf, Tiled, Quiet;
    if x.page in chain { SizeBounds(chain[x.page], x.off, false); }
  }

  lemma PavedPage(chain: Chains, p: nat, c: Chain)
    requires Paved(chain) && Tiled(c) && Quiet(c)
    ensures Paved(chain[p := c])
  {
  }

  lemma BusyElsewhere(chain: Chains, p: nat, c: Chain, x: Ptr)
    requires p in chain && x.page == p && forall off | off != x.off ::
               SizeIf(c, off, true) == SizeIf(chain[p], off, true)
    ensures forall y | y != x :: At(chain[p := c], y, true) == At(chain, y, true)
  {
    hide SizeIf;
    forall y | y != x ensures At(chain[p := c], y, true) == At(chain, y, true) {
      assert y.page == p ==> y.off != x.off;
    }
  }

  lemma CarveSplit(chain: Chains, sizes: Sizes, x: Ptr, i: nat, size: nat)
    requires Paved(chain) && Matches(chain, sizes) && x in sizes && x.page in chain
    requires i < |chain[x.page]| - 1 && chain[x.page][i] == Block(x.off, false)
    requires size + SIZE_SLOP < ObjSize(chain[x.page], i) && size % ALIGNMENT == 0
    ensures var c' := Split(chain[x.page], i, size); var next := Ptr(x.page, x.off + size + BLOCK);
            && Paved(chain[x.page := c']) && Occupied(c') && next !in sizes && SizeIf(c', x.off, true) == size + HEADER
            && 0 <= ObjSize(c', i + 1) == ObjSize(chain[x.page], i) - size - BLOCK <= LARGEST
            && Matches(chain[x.page := c'], (sizes - {x})[next := ObjSize(c', i + 1)])
            && forall y | y != x :: At(chain[x.page := c'], y, true) == At(chain, y, true)
  {
    hide SizeIf, Matches, Split, Tiled, Quiet;
    var p, c := x.page, chain[x.page];
    var c' := Split(c, i, size);
    var next := Ptr(p, x.off + size + BLOCK);
    CarveSplitPage(c, i, size);
    PavedPage(chain, p, c');
    SplitSizes(c, i, size, x.off);
    SplitSizes(c, i, size, next.off);
    SplitNext(c, i, size);
    MatchAt(chain, sizes, next);
    var sizes' := (sizes - {x})[next := ObjSize(c', i + 1)];
    forall off ensures Get(sizes', Ptr(p, off)) == SizeIf(c', off, false) {
      SplitSizes(c, i, size, off);
      MatchAt(chain, sizes, Ptr(p, off));
    }
    MatchPage(chain, sizes, p, c', sizes');
    forall off | off != x.off ensures SizeIf(c', off, true) == SizeIf(c, off, true) { SplitSizes(c, i, size, off); }
    BusyElsewhere(chain, p, c', x);
  }

  lemma CarveSplitPage(c: Chain, i: nat, size: nat)
    requires Tiled(c) && Quiet(c) && i < |c| - 1 && !c[i].busy && size + SIZE_SLOP < ObjSize(c, i)
               && size % ALIGNMENT == 0
    ensures Tiled(Split(c, i, size)) && Quiet(Split(c, i, size)) && Occupied(Split(c, i, size))
  {
    SplitTiled(c, i, size);
    SplitQuiet(c, i, size);
  }

  /** What is split off is a block of its own that was none before. */
  lemma SplitNext(c: Chain, i: nat, size: nat)
    requires Tiled(c) && i < |c| - 1 && !c[i].busy && size + SIZE_SLOP < ObjSize(c, i) && size % ALIGNMENT == 0
    ensures ObjSize(Split(c, i, size), i + 1) == ObjSize(c, i) - size - BLOCK
    ensures 0 <= ObjSize(Split(c, i, size), i + 1) <= LARGEST
    ensures SizeIf(c, c[i].off + size + BLOCK, false) == -1
  {
    hide Split, IndexOf, Aligned;
    SizeAt(c, i, false);
    SizeBounds(c, c[i].off, false);
    var k := IndexOf(c, c[i].off + size + BLOCK, |c| - 1);
    assert forall j | i < j < |c| :: c[i + 1].off <= c[j].off;
  }

  lemma CarveWhole(chain: Chains, sizes: Sizes, x: Ptr, i: nat)
    requires Paved(chain) && Matches(chain, sizes) && x in sizes && x.page in chain
    requires var c := chain[x.page]; i < |c| - 1 && c[i] == Block(x.off, false)
    ensures var c' := Mark(chain[x.page], i, true);
            && Paved(chain[x.page := c']) && Occupied(c') && SizeIf(c', x.off, true) == ObjSize(chain[x.page], i)
            && Matches(chain[x.page := c'], sizes - {x})
            && forall y | y != x :: At(chain[x.page := c'], y, true) == At(chain, y, true)
  {
    hide SizeIf, Matches, Mark, Tiled, Quiet;
    var p, c := x.page, chain[x.page];
    var c' := Mark(c, i, true);
    MarkTiled(c, i, true);
    MarkQuiet(c, i);
    PavedPage(chain, p, c');
    MarkSizes(c, i, true, x.off);
    forall off ensures Get(sizes - {x}, Ptr(p, off)) == SizeIf(c', off, false) {
      MarkSizes(c, i, true, off);
      MatchAt(chain, sizes, Ptr(p, off));
    }
    MatchPage(chain, sizes, p, c', sizes - {x});
    forall off | off != x.off ensures SizeIf(c', off, true) == SizeIf(c, off, true) { MarkSizes(c, i, true, off); }
    BusyElsewhere(chain, p, c', x);
  }

  lemma EmptyPage(chain: Chains, sizes: Sizes, p: nat)
    requires Matches(chain, sizes) && p !in chain
    ensures var c := [Block(FIRST, false), Block(SENTINEL, false)];
            Tiled(c) && Quiet(c) && Matches(chain[p := c], sizes[Ptr(p, FIRST) := LARGEST])
  {
    var c := [Block(FIRST, false), Block(SENTINEL, false)];
    forall off ensures Get(sizes[Ptr(p, FIRST) := LARGEST], Ptr(p, off)) == SizeIf(c, off, false) {
      MatchAt(chain, sizes, Ptr(p, off));
    }
    MatchPage(chain, sizes, p, c, sizes[Ptr(p, FIRST) := LARGEST]);
  }
}
