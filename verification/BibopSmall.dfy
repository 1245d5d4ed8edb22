/** Small objects of the allocator (src/bibopmalloc.c).

    All objects on a small page have one size, and a bitmap says which of them are free.
    A machine word of the bitmap is a sequence of 64 bits, the lowest first.
 */
module BibopSmall {
  import opened BibopPages
  import opened BibopBlocks

  /** Requests below this size go to small pages. */
  const SMALL_SIZE: nat := 56
  const DESCR: nat := 56
  const BITS: nat := 64
  const WORD: nat := 8

  type Bits = seq<bool>

  predicate NoneSet(m: Bits, lo: nat, hi: nat)
    requires lo <= hi <= |m|
  {
    forall k | lo <= k < hi :: !m[k]
  }

  /** The table lookup on a byte: its lowest bit that is set. */
  function LowestIn(m: Bits, lo: nat, hi: nat): (k: nat)
    requires lo < hi <= |m| && !NoneSet(m, lo, hi)
    ensures lo <= k < hi && m[k] && NoneSet(m, lo, k)
    decreases hi - lo
  {
    if m[lo] then lo else LowestIn(m, lo + 1, hi)
  }

  /** The halving search for the lowest bit that is set in a word. */
  method LowestBit(m: Bits) returns (j: nat)
    requires |m| == BITS && !NoneSet(m, 0, BITS)
    ensures j < BITS && m[j] && NoneSet(m, 0, j)
  {
    j := 0;
    if NoneSet(m, 0, BITS / 2) { j := j + BITS / 2; }
    if NoneSet(m, j, j + BITS / 4) { j := j + BITS / 4; }
    if NoneSet(m, j, j + BITS / 8) { j := j + BITS / 8; }
    j := LowestIn(m, j, j + BITS / 8);
  }

  /** The header of a small page. */
  datatype Bag = Bag(objsize: nat, objfree: int, maxobj: nat, freemap: seq<Bits>, nextfree: nat, objs: nat)

  predicate SmallSize(size: nat) {
    0 < size < SMALL_SIZE && size % ALIGNMENT == 0
  }

  predicate Words(words: seq<Bits>) {
    forall i | 0 <= i < |words| :: |words[i]| == BITS
  }

  predicate BitAt(words: seq<Bits>, k: int)
    requires Words(words)
  {
    0 <= k < BITS * |words| && words[k / BITS][k % BITS]
  }

  ghost function FreeSet(words: seq<Bits>): (s: set<int>)
    requires Words(words)
    ensures forall k :: k in s <==> BitAt(words, k)
  {
    set k | 0 <= k < BITS * |words| && BitAt(words, k)
  }

  /** The bitmap tells of every object, and of nothing beyond, whether it is free. */
  ghost predicate BagOk(b: Bag) {
    && SmallSize(b.objsize)
    && Words(b.freemap) && b.nextfree < |b.freemap|
    && (forall k | BitAt(b.freemap, k) :: k < b.maxobj)
    && b.maxobj <= BITS * |b.freemap|
    && b.objfree == |FreeSet(b.freemap)|
    && b.objs == DESCR + WORD * |b.freemap| && b.objs + b.maxobj * b.objsize <= PAGE_SIZE
  }

  function SetBit(words: seq<Bits>, k: nat, v: bool): (r: seq<Bits>)
    requires Words(words) && k < BITS * |words|
    ensures Words(r) && |r| == |words|
    ensures forall n :: BitAt(r, n) <==> if n == k then v else BitAt(words, n)
  {
    words[k / BITS := words[k / BITS][k % BITS := v]]
  }

  lemma SetBitCount(words: seq<Bits>, k: nat, v: bool)
    requires Words(words) && k < BITS * |words| && BitAt(words, k) != v
    ensures |FreeSet(SetBit(words, k, v))| == |FreeSet(words)| + if v then 1 else -1
  {
    hide SetBit, BitAt;
    if v {
      assert FreeSet(SetBit(words, k, v)) == FreeSet(words) + {k};
    } else {
      assert FreeSet(words) == FreeSet(SetBit(words, k, v)) + {k};
    }
  }

  /** An object that is in use: its index and its offset in the page. */
  predicate Taken(b: Bag, k: nat)
  {
    k < b.maxobj && Words(b.freemap) && !BitAt(b.freemap, k)
  }

  function Offset(b: Bag, k: nat): nat { b.objs + k * b.objsize }

  /** A bitmap of n set bits. */
  method FilledMap(n: nat, nmap: nat) returns (m: seq<Bits>)
    requires nmap == (n + BITS - 1) / BITS && n > 0
    ensures |m| == nmap && Words(m) && forall k :: BitAt(m, k) <==> 0 <= k < n
  {
    m := [];
    var ones := seq(BITS, _ => true);
    while |m| < nmap - 1
      invariant |m| < nmap && Words(m) && forall i | 0 <= i < |m| :: m[i] == ones
    {
      m := m + [ones];
    }
    var j := n % BITS;
    var last := if j != 0 then seq(BITS, i => i < j) else ones;
    m := m + [last];
  }

  lemma LayoutStep(size: nat, nmap: nat)
    requires SmallSize(size) && (nmap == 0 || nmap == 64 || nmap == Fixed(size)) && (nmap == 64 ==> size == 8)
    ensures var nobj := (PAGE_SIZE - DESCR - nmap * WORD - 2 * ALIGNMENT) / size;
            var n := (nobj + BITS - 1) / BITS;
            && n == (if nmap == 0 && size == 8 then 64 else Fixed(size)) && nobj > 0
            && (n == nmap ==> DESCR + n * WORD + nobj * size <= PAGE_SIZE)
  {
    assert size == 8 || size == 16 || size == 24 || size == 32 || size == 40 || size == 48;
  }

  /** Where the search for the number of bitmap words settles. */
  function Fixed(size: nat): nat {
    if size == 8 then 63 else if size == 16 then 32 else if size == 24 then 22
    else if size == 32 then 16 else if size == 40 then 13 else 11
  }

  /** newbibop's iteration for how many objects and bitmap words fit on a page. */
  method Layout(size: nat) returns (nobj: nat, nmap: nat)
    requires SmallSize(size)
    ensures nobj > 0 && nmap == (nobj + BITS - 1) / BITS
    ensures DESCR + nmap * WORD + nobj * size <= PAGE_SIZE
  {
    nmap, nobj := 0, 0;
    var nnmap: int := -1;
    while nmap != nnmap
      invariant (nmap == 0 || nmap == 64 || nmap == Fixed(size)) && (nmap == 64 ==> size == 8)
      invariant nmap == 0 ==> nnmap == -1
      invariant nmap > 0 ==> nobj > 0 && nmap == (nobj + BITS - 1) / BITS
      invariant nmap == nnmap ==> DESCR + nmap * WORD + nobj * size <= PAGE_SIZE
      decreases if nmap == nnmap then 0 else if nmap == 0 then 3 else if nmap == 64 then 2 else 1
    {
      LayoutStep(size, nmap);
      nobj := (PAGE_SIZE - DESCR - nmap * WORD - 2 * ALIGNMENT) / size;
      nnmap := nmap;
      nmap := (nobj + BITS - 1) / BITS;
    }
  }

  lemma SomeWord(words: seq<Bits>) returns (w: nat)
    requires Words(words) && |FreeSet(words)| > 0
    ensures w < |words| && !NoneSet(words[w], 0, BITS)
  {
    var k :| k in FreeSet(words);
    w := k / BITS;
    assert words[w][k % BITS];
  }

  /** How far it is from word i on, around the end, to word w. */
  function Ahead(i: nat, w: nat, n: nat): int { if i <= w then w - i else w + n - i }

  /** The lists of small pages, one for each size. */
  class SmallStore {
    var bags: map<nat, Bag>
    var lists: seq<seq<nat>>

    ghost predicate Valid()
      reads this
    {
      && |lists| == SMALL_SIZE / ALIGNMENT
      && (forall p | p in bags :: BagOk(bags[p]))
      && (forall s, p | 0 <= s < |lists| :: p in lists[s] <==> p in bags && bags[p].objsize / ALIGNMENT - 1 == s)
    }

    constructor ()
      ensures Valid() && bags == map[]
    {
      bags := map[];
      lists := seq(SMALL_SIZE / ALIGNMENT, _ => []);
    }

    /** The first page for objects of this size that has one free. */
    method FindBag(size: nat) returns (r: Maybe<nat>)
      requires Valid() && SmallSize(size)
      ensures r.None? <==> forall p | p in bags && bags[p].objsize == size :: bags[p].objfree == 0
      ensures r.Some? ==> r.value in bags && bags[r.value].objsize == size && bags[r.value].objfree > 0
    {
      hide BagOk;
      var l := lists[size / ALIGNMENT - 1];
      var k := 0;
      while k < |l|
        invariant k <= |l| && forall j | 0 <= j < k :: l[j] in bags && bags[l[j]].objfree == 0
      {
        assert l[k] in l && l[k] in bags;
        BagSize(bags[l[k]]);
        if bags[l[k]].objfree != 0 { return Some(l[k]); }
        k := k + 1;
      }
      r := None;
      forall p | p in bags && bags[p].objsize == size ensures bags[p].objfree == 0 {
        assert p in l;
      }
    }

    /** newbibop: a page becomes a bag of free objects, first on its list. */
    method NewBibop(p: nat, size: nat)
      requires Valid() && SmallSize(size) && p !in bags
      modifies this
      ensures Valid() && bags.Keys == old(bags).Keys + {p} && bags[p].objsize == size && bags[p].objfree > 0
      ensures forall q | q in old(bags) :: bags[q] == old(bags)[q]
      ensures forall k :: !Taken(bags[p], k)
    {
      hide BagOk;
      var nobj, nmap := Layout(size);
      var m := FilledMap(nobj, nmap);
      NewBag(m, nobj, size);
      bags := bags[p := Bag(size, nobj, nobj, m, 0, DESCR + WORD * nmap)];
      var s := size / ALIGNMENT - 1;
      lists := lists[s := [p] + lists[s]];
    }

    /** The rest of malloc: the lowest free object from the page's cached position on. */
    method TakeObject(p: nat) returns (k: nat)
      requires Valid() && p in bags && bags[p].objfree > 0
      modifies this
      ensures Valid() && bags.Keys == old(bags).Keys && forall q | q in bags && q != p :: bags[q] == old(bags)[q]
      ensures bags[p].objs == old(bags)[p].objs && bags[p].objsize == old(bags)[p].objsize
      ensures !Taken(old(bags)[p], k) && forall n :: Taken(bags[p], n) <==> n == k || Taken(old(bags)[p], n)
    {
      hide BagOk, Taken, BitAt;
      var b := bags[p];
      BagMap(b);
      var i := FindWord(b.freemap, b.nextfree);
      var j := LowestBit(b.freemap[i]);
      k := i * BITS + j;
      WordBit(b.freemap, i, j);
      BagTake(b, k, i);
      bags := bags[p := b.(freemap := SetBit(b.freemap, k, false), objfree := b.objfree - 1, nextfree := i)];
    }

    /** free, on a small page. */
    method PutObject(p: nat, off: nat)
      requires Valid() && p in bags && exists k :: Taken(bags[p], k) && off == Offset(bags[p], k)
      modifies this
      ensures Valid() && bags.Keys == old(bags).Keys && forall q | q in bags && q != p :: bags[q] == old(bags)[q]
      ensures bags[p].objs == old(bags)[p].objs && bags[p].objsize == old(bags)[p].objsize
      ensures forall n :: Taken(bags[p], n) <==> Taken(old(bags)[p], n) && off != Offset(bags[p], n)
    {
      hide BagOk, Taken, BitAt, Words, Offset;
      var b := bags[p];
      BagSize(b);
      ghost var k :| Taken(b, k) && off == Offset(b, k);
      var offs := BlockIndex(b, off, k);
      BagPut(b, offs);
      bags := bags[p := b.(freemap := SetBit(b.freemap, offs, true), nextfree := offs / BITS,
                           objfree := b.objfree + 1)];
      forall n ensures Taken(bags[p], n) <==> Taken(old(bags)[p], n) && off != Offset(bags[p], n) {
        OffsetIndex(b, k, n);
        assert Offset(bags[p], n) == Offset(b, n) by { SameOffset(bags[p], b, n); }
      }
    }
  }

  lemma BagMap(b: Bag)
    requires BagOk(b) && b.objfree > 0
    ensures Words(b.freemap) && |FreeSet(b.freemap)| > 0 && b.nextfree < |b.freemap|
  {
  }

  lemma BagTake(b: Bag, k: nat, i: nat)
    requires BagOk(b) && BitAt(b.freemap, k) && i < |b.freemap|
    ensures k < BITS * |b.freemap| && !Taken(b, k)
    ensures var b' := b.(freemap := SetBit(b.freemap, k, false), objfree := b.objfree - 1, nextfree := i);
            BagOk(b') && forall n :: Taken(b', n) <==> n == k || Taken(b, n)
  {
    hide Words, SetBit;
    assert k < BITS * |b.freemap| by { BitRange(b.freemap, k); }
    hide BitAt;
    SetBitCount(b.freemap, k, false);
  }

  lemma BitRange(m: seq<Bits>, k: int)
    requires Words(m) && BitAt(m, k)
    ensures 0 <= k < BITS * |m|
  {
  }

  lemma BagPut(b: Bag, k: nat)
    requires BagOk(b) && Taken(b, k)
    ensures Words(b.freemap) && k < BITS * |b.freemap|
    ensures var b' := b.(freemap := SetBit(b.freemap, k, true), nextfree := k / BITS, objfree := b.objfree + 1);
            BagOk(b') && forall n :: Taken(b', n) <==> n != k && Taken(b, n)
  {
    hide Words, SetBit, BitAt;
    SetBitCount(b.freemap, k, true);
  }

  lemma SameOffset(a: Bag, b: Bag, n: nat)
    requires a.objs == b.objs && a.objsize == b.objsize
    ensures Offset(a, n) == Offset(b, n)
  {
  }

  method BlockIndex(b: Bag, off: nat, ghost k: nat) returns (offs: nat)
    requires b.objsize > 0 && off == Offset(b, k)
    ensures offs == k
  {
    DivMul(k, b.objsize);
    offs := (off - b.objs) / b.objsize;
  }

  lemma DivMul(k: nat, d: nat)
    requires d > 0
    ensures k * d >= 0 && (k * d) / d == k
  {
    var q, r := (k * d) / d, (k * d) % d;
    assert q * d + r == k * d;
    if q < k { Mono(q + 1, k, d); }
    if q > k { Mono(k + 1, q, d); }
  }

  lemma Mono(a: nat, b: nat, d: nat)
    requires a <= b
    ensures a * d <= b * d
  {
  }

  lemma BagSize(b: Bag)
    requires BagOk(b)
    ensures SmallSize(b.objsize) && b.objfree >= 0
  {
  }

  lemma NewBag(m: seq<Bits>, nobj: nat, size: nat)
    requires Words(m) && |m| > 0 && nobj <= BITS * |m| && SmallSize(size) && forall k :: BitAt(m, k) <==> 0 <= k < nobj
    requires DESCR + WORD * |m| + nobj * size <= PAGE_SIZE
    ensures BagOk(Bag(size, nobj, nobj, m, 0, DESCR + WORD * |m|))
  {
    hide BitAt, Words;
    SpanSize(0, nobj);
    assert FreeSet(m) == Span(0, nobj);
  }

  lemma WordBit(m: seq<Bits>, i: nat, j: nat)
    requires Words(m) && i < |m| && j < BITS && m[i][j]
    ensures BitAt(m, i * BITS + j)
  {
  }

  /** No two objects are at the same place. */
  lemma OffsetIndex(b: Bag, k: nat, n: nat)
    requires b.objsize > 0
    ensures Offset(b, n) == Offset(b, k) <==> n == k
  {
    if n < k { Mono(n + 1, k, b.objsize); }
    if n > k { Mono(k + 1, n, b.objsize); }
  }

  /** The search for a word with a free object comes around to one. */
  method FindWord(m: seq<Bits>, start: nat) returns (i: nat)
    requires Words(m) && |FreeSet(m)| > 0 && start < |m|
    ensures i < |m| && !NoneSet(m[i], 0, BITS)
  {
    ghost var w := SomeWord(m);
    i := start;
    while NoneSet(m[i], 0, BITS)
      invariant i < |m| && Ahead(i, w, |m|) <= Ahead(start, w, |m|)
      decreases Ahead(i, w, |m|)
    {
      i := i + 1;
      if i >= |m| { i := 0; }
      assert i != start;
    }
  }
}
