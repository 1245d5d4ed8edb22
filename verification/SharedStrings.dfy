/** Shared strings (src/mstring.c).

    Memory is a map from addresses to string headers, so that an address that was freed
    may be handed out again.  Chains are linked both ways through the headers; a string
    that is found moves to the front of its chain.  Reference counts have 16 bits: a count
    that runs over sticks at 0, and the string is never freed.
 */
module SharedStrings {

  const HTABLE_SIZE: nat := 0x8000
  const COUNTS: nat := 0x10000

  /** An address; 0 is the null pointer. */
  type Addr = nat

  datatype Header = Header(prev: Addr, next: Addr, hash: nat, count: nat, text: string)

  type Heap = map<Addr, Header>

  /** Who holds a reference: function i of a program, or anybody else. */
  datatype Holder = Prog(id: nat, i: nat) | Other(n: nat)

  type Refs = map<Addr, set<Holder>>

  // ---- doubly linked chains ---------------------------------------------------------

  function PrevOf(l: seq<Addr>, k: nat): Addr
    requires k < |l|
  {
    if k == 0 then 0 else l[k - 1]
  }

  function NextOf(l: seq<Addr>, k: nat): Addr
    requires k < |l|
  {
    if k == |l| - 1 then 0 else l[k + 1]
  }

  ghost predicate NodeAt(heap: Heap, l: seq<Addr>, k: nat, h: nat) {
    k < |l| && l[k] in heap && heap[l[k]].prev == PrevOf(l, k) && heap[l[k]].next == NextOf(l, k)
        && heap[l[k]].hash == h
  }

  ghost predicate Distinct(l: seq<Addr>) {
    forall i, j | 0 <= i < j < |l| :: l[i] != l[j]
  }

  /** The chain of slot h is the list l, linked both ways. */
  ghost predicate ListOk(heap: Heap, head: Addr, l: seq<Addr>, h: nat) {
    && head == (if l == [] then 0 else l[0])
    && Distinct(l) && 0 !in l
    && forall k | 0 <= k < |l| :: NodeAt(heap, l, k, h)
  }

  /** Every string in memory is on the chain of its hash value. */
  ghost predicate ChainsOk(heap: Heap, table: seq<Addr>, lists: seq<seq<Addr>>) {
    && |table| == HTABLE_SIZE && |lists| == HTABLE_SIZE
    && (forall h | 0 <= h < HTABLE_SIZE :: ListOk(heap, table[h], lists[h], h))
    && (forall a | a in heap :: heap[a].hash < HTABLE_SIZE && a in lists[heap[a].hash])
  }

  function Without(l: seq<Addr>, i: nat): (r: seq<Addr>)
    requires i < |l|
    ensures |r| == |l| - 1
    ensures forall j | 0 <= j < i :: r[j] == l[j]
    ensures forall j | i <= j < |r| :: r[j] == l[j + 1]
  {
    l[..i] + l[i + 1..]
  }

  lemma WithoutMember(l: seq<Addr>, i: nat, x: Addr)
    requires i < |l| && Distinct(l)
    ensures x in Without(l, i) <==> x in l && x != l[i]
  {
    var r := Without(l, i);
    if x in l && x != l[i] {
      var j :| 0 <= j < |l| && l[j] == x;
      assert r[if j < i then j else j - 1] == x;
    }
    if x in r {
      var j :| 0 <= j < |r| && r[j] == x;
      assert l[if j < i then j else j + 1] == x;
    }
  }

  /** The neighbours of a are linked to each other. */
  function Bypass(heap: Heap, a: Addr): Heap
    requires a in heap
  {
    var p, n := heap[a].prev, heap[a].next;
    var heap1 := if p != 0 && p in heap then heap[p := heap[p].(next := n)] else heap;
    if n != 0 && n in heap1 then heap1[n := heap1[n].(prev := p)] else heap1
  }

  /** a becomes the first before head. */
  function Prefix(heap: Heap, head: Addr, a: Addr, x: Header): Heap {
    var heap1 := heap[a := x.(prev := 0, next := head)];
    if head != 0 && head in heap1 then heap1[head := heap1[head].(prev := a)] else heap1
  }

  /** All but the links is the same. */
  ghost predicate SameStrings(heap: Heap, heap': Heap) {
    && heap.Keys == heap'.Keys
    && forall a | a in heap :: heap'[a] == heap[a].(prev := heap'[a].prev, next := heap'[a].next)
  }

  lemma Neighbours(heap: Heap, head: Addr, l: seq<Addr>, h: nat, i: nat)
    requires ListOk(heap, head, l, h) && i < |l|
    ensures l[i] in heap && l[i] != 0 && heap[l[i]].prev == PrevOf(l, i) && heap[l[i]].next == NextOf(l, i)
              && heap[l[i]].hash == h
    ensures i > 0 ==> l[i - 1] in heap && l[i - 1] != 0 && l[i - 1] != l[i]
    ensures i < |l| - 1 ==> l[i + 1] in heap && l[i + 1] != 0 && l[i + 1] != l[i]
    ensures 0 < i < |l| - 1 ==> l[i - 1] != l[i + 1]
  {
    assert NodeAt(heap, l, i, h);
    if i > 0 { assert NodeAt(heap, l, i - 1, h); }
    if i < |l| - 1 { assert NodeAt(heap, l, i + 1, h); }
  }

  lemma BypassOk(heap: Heap, head: Addr, l: seq<Addr>, h: nat, i: nat)
    requires ListOk(heap, head, l, h) && i < |l|
    ensures l[i] in heap && SameStrings(heap, Bypass(heap, l[i]))
    ensures ListOk(Bypass(heap, l[i]), if i == 0 then NextOf(l, i) else head, Without(l, i), h)
  {
    hide Without, ListOk;
    Neighbours(heap, head, l, h, i);
    var heap', l' := Bypass(heap, l[i]), Without(l, i);
    forall k | 0 <= k < |l'| ensures NodeAt(heap', l', k, h) { BypassNode(heap, head, l, h, i, k); }
    BypassList(heap, head, l, h, i);
  }

  lemma BypassList(heap: Heap, head: Addr, l: seq<Addr>, h: nat, i: nat)
    requires ListOk(heap, head, l, h) && i < |l| && l[i] in heap
    requires var heap', l' := Bypass(heap, l[i]), Without(l, i); forall k | 0 <= k < |l'| :: NodeAt(heap', l', k, h)
    ensures ListOk(Bypass(heap, l[i]), if i == 0 then NextOf(l, i) else head, Without(l, i), h)
  {
    hide Without, Bypass, NodeAt;
    WithoutMember(l, i, 0);
  }

  lemma BypassNode(heap: Heap, head: Addr, l: seq<Addr>, h: nat, i: nat, k: nat)
    requires ListOk(heap, head, l, h) && i < |l| && k < |l| - 1
    ensures l[i] in heap && NodeAt(Bypass(heap, l[i]), Without(l, i), k, h)
  {
    hide Without;
    var o := if k < i then k else k + 1;
    Neighbours(heap, head, l, h, i);
    Neighbours(heap, head, l, h, o);
    Apart(heap, head, l, h, o, i);
    if i > 0 && o != i - 1 { Apart(heap, head, l, h, o, i - 1); }
    if i < |l| - 1 && o != i + 1 { Apart(heap, head, l, h, o, i + 1); }
    hide ListOk;
  }

  lemma Apart(heap: Heap, head: Addr, l: seq<Addr>, h: nat, i: nat, j: nat)
    requires ListOk(heap, head, l, h) && i < |l| && j < |l| && i != j
    ensures l[i] != l[j]
  {
  }

  lemma PrefixOk(heap: Heap, head: Addr, l: seq<Addr>, h: nat, a: Addr, x: Header)
    requires ListOk(heap, head, l, h) && a !in l && a != 0 && x.hash == h
    ensures ListOk(Prefix(heap, head, a, x), a, [a] + l, h)
  {
    var heap', l' := Prefix(heap, head, a, x), [a] + l;
    forall k | 0 <= k < |l'| ensures NodeAt(heap', l', k, h) {
      if k > 0 {
        assert NodeAt(heap, l, k - 1, h) && l[k - 1] in l;
        assert k > 1 ==> l[0] != l[k - 1];
      } else if l != [] {
        assert NodeAt(heap, l, 0, h) && l[0] in l;
      }
    }
  }

  lemma ListFrame(heap: Heap, heap': Heap, head: Addr, l: seq<Addr>, h: nat)
    requires ListOk(heap, head, l, h) && forall a | a in l :: a in heap' && (a in heap ==> heap'[a] == heap[a])
    ensures ListOk(heap', head, l, h)
  {
    forall k | 0 <= k < |l| ensures NodeAt(heap', l, k, h) { assert NodeAt(heap, l, k, h) && l[k] in l; }
  }

  // ---- the whole table ----------------------------------------------------------------

  /** One chain changes; strings on other chains do not. */
  lemma ChainsSet(heap: Heap, heap': Heap, table: seq<Addr>, lists: seq<seq<Addr>>, h: nat, head: Addr, l: seq<Addr>)
    requires ChainsOk(heap, table, lists) && h < HTABLE_SIZE && ListOk(heap', head, l, h)
    requires forall a | a in heap && heap[a].hash != h :: a in heap' && heap'[a] == heap[a]
    requires forall a | a in heap' :: if heap'[a].hash == h then a in l else a in heap && heap'[a] == heap[a]
    ensures ChainsOk(heap', table[h := head], lists[h := l])
  {
    hide ListOk;
    forall g | 0 <= g < HTABLE_SIZE && g != h ensures ListOk(heap', table[g], lists[g], g) {
      forall a | a in lists[g] ensures a in heap && heap[a].hash == g { Hashed(heap, table[g], lists[g], g, a); }
      ListFrame(heap, heap', table[g], lists[g], g);
    }
  }

  lemma Hashed(heap: Heap, head: Addr, l: seq<Addr>, h: nat, a: Addr)
    requires ListOk(heap, head, l, h) && a in l
    ensures a in heap && heap[a].hash == h && a != 0
  {
    var k :| 0 <= k < |l| && l[k] == a;
    assert NodeAt(heap, l, k, h);
  }

  /** Links change only on the chain of a. */
  lemma BypassElsewhere(heap: Heap, head: Addr, l: seq<Addr>, h: nat, i: nat)
    requires ListOk(heap, head, l, h) && i < |l|
    ensures l[i] in heap && forall b | b in heap && heap[b].hash != h ::
              b in Bypass(heap, l[i]) && Bypass(heap, l[i])[b] == heap[b]
  {
    hide ListOk;
    Neighbours(heap, head, l, h, i);
    if i > 0 { HashAt(heap, head, l, h, i - 1); }
    if i < |l| - 1 { HashAt(heap, head, l, h, i + 1); }
  }

  lemma HashAt(heap: Heap, head: Addr, l: seq<Addr>, h: nat, i: nat)
    requires ListOk(heap, head, l, h) && i < |l|
    ensures l[i] in heap && heap[l[i]].hash == h
  {
    assert NodeAt(heap, l, i, h);
  }

  /** A string is taken off its chain and out of memory. */
  lemma Dropped(heap: Heap, table: seq<Addr>, lists: seq<seq<Addr>>, h: nat, i: nat)
    requires ChainsOk(heap, table, lists) && h < HTABLE_SIZE && i < |lists[h]|
    ensures var a := lists[h][i];
            && a in heap && heap[a].hash == h && (heap[a].prev == 0 <==> i == 0)
            && SameStrings(heap, Bypass(heap, a))
            && ChainsOk(Bypass(heap, a) - {a}, if i == 0 then table[h := heap[a].next] else table,
                        lists[h := Without(lists[h], i)])
  {
    hide ListOk, Bypass, Without;
    var l := lists[h];
    var a := l[i];
    assert ListOk(heap, table[h], l, h);
    Neighbours(heap, table[h], l, h, i);
    BypassOk(heap, table[h], l, h, i);
    BypassElsewhere(heap, table[h], l, h, i);
    var heap', l' := Bypass(heap, a) - {a}, Without(l, i);
    var head := if i == 0 then NextOf(l, i) else table[h];
    assert Distinct(l) by { ListDistinct(heap, table[h], l, h); }
    forall x ensures x in l' <==> x in l && x != a { WithoutMember(l, i, x); }
    forall x | x in l' ensures x in heap { Hashed(heap, table[h], l, h, x); }
    ListFrame(Bypass(heap, a), heap', head, l', h);
    ChainsSet(heap, heap', table, lists, h, head, l');
    assert i > 0 ==> table[h := head] == table;
  }

  lemma ListDistinct(heap: Heap, head: Addr, l: seq<Addr>, h: nat)
    requires ListOk(heap, head, l, h)
    ensures Distinct(l)
  {
  }

  /** A new string goes to the front of its chain. */
  lemma Inserted(heap: Heap, table: seq<Addr>, lists: seq<seq<Addr>>, h: nat, a: Addr, x: Header)
    requires ChainsOk(heap, table, lists) && h < HTABLE_SIZE && a !in heap && a != 0 && x.hash == h
    ensures var heap' := Prefix(heap, table[h], a, x);
            && ChainsOk(heap', table[h := a], lists[h := [a] + lists[h]])
            && SameStrings(heap[a := x], heap')
  {
    hide ListOk;
    var l := lists[h];
    assert ListOk(heap, table[h], l, h);
    if a in l { Hashed(heap, table[h], l, h, a); }
    if l != [] { HashAt(heap, table[h], l, h, 0); }
    assert table[h] == if l == [] then 0 else l[0] by { HeadOf(heap, table[h], l, h); }
    PrefixOk(heap, table[h], l, h, a, x);
    ChainsSet(heap, Prefix(heap, table[h], a, x), table, lists, h, a, [a] + l);
  }

  lemma HeadOf(heap: Heap, head: Addr, l: seq<Addr>, h: nat)
    requires ListOk(heap, head, l, h)
    ensures head == if l == [] then 0 else l[0]
  {
  }

  // ---- what the table means ---------------------------------------------------------------

  function Home(hash: string -> nat, s: string): nat { hash(s) % HTABLE_SIZE }

  /** No two strings have the same text: the same text is the same address. */
  ghost predicate Interned(heap: Heap, hash: string -> nat) {
    && (forall a | a in heap :: heap[a].hash == Home(hash, heap[a].text))
    && (forall a, b | a in heap && b in heap && heap[a].text == heap[b].text :: a == b)
  }

  /** The count is right, or stuck at 0. */
  ghost predicate CountOk(count: nat, holders: set<Holder>, stuck: bool) {
    if stuck then count == 0 else 0 < count == |holders| < COUNTS
  }

  ghost predicate Counted(heap: Heap, refs: Refs, stuck: set<Addr>) {
    refs.Keys == heap.Keys && stuck <= heap.Keys && forall a | a in heap :: CountOk(heap[a].count, refs[a], a in stuck)
  }

  /** A count sticks with the holder for which there is no number left. */
  ghost function Sticking(stuck: set<Addr>, a: Addr, holders: set<Holder>): set<Addr> {
    if |holders| >= COUNTS then stuck + {a} else stuck
  }

  lemma SameMeaning(heap: Heap, heap': Heap, hash: string -> nat, refs: Refs, stuck: set<Addr>)
    requires SameStrings(heap, heap') && Interned(heap, hash) && Counted(heap, refs, stuck)
    ensures Interned(heap', hash) && Counted(heap', refs, stuck)
  {
  }

  lemma MovedToFront(heap: Heap, table: seq<Addr>, lists: seq<seq<Addr>>, h: nat, i: nat)
    requires ChainsOk(heap, table, lists) && h < HTABLE_SIZE && 0 < i < |lists[h]|
    ensures var a := lists[h][i];
            && a in heap && a in Bypass(heap, a)
            && var heap' := Prefix(Bypass(heap, a), table[h], a, Bypass(heap, a)[a]);
            && ChainsOk(heap', table[h := a], lists[h := [a] + Without(lists[h], i)]) && SameStrings(heap, heap')
  {
    hide ChainsOk, Bypass, Without;
    ChainsShape(heap, table, lists);
    var a := lists[h][i];
    Dropped(heap, table, lists, h, i);
    var heap1, lists1 := Bypass(heap, a), lists[h := Without(lists[h], i)];
    assert a != 0 by { ChainsNull(heap, table, lists, h, i); }
    assert |table| == HTABLE_SIZE by { ChainsNull(heap, table, lists, h, i); }
    Inserted(heap1 - {a}, table, lists1, h, a, heap1[a]);
    assert (heap1 - {a})[a := heap1[a]] == heap1;
    assert Prefix(heap1 - {a}, table[h], a, heap1[a]) == Prefix(heap1, table[h], a, heap1[a]);
    assert lists1[h := [a] + lists1[h]] == lists[h := [a] + Without(lists[h], i)];
  }

  lemma ChainsNull(heap: Heap, table: seq<Addr>, lists: seq<seq<Addr>>, h: nat, i: nat)
    requires ChainsOk(heap, table, lists) && h < HTABLE_SIZE && i < |lists[h]|
    ensures lists[h][i] != 0 && |table| == HTABLE_SIZE && |lists| == HTABLE_SIZE && NodeAt(heap, lists[h], i, h)
  {
    assert ListOk(heap, table[h], lists[h], h);
  }

  lemma AlreadyFirst(heap: Heap, table: seq<Addr>, lists: seq<seq<Addr>>, h: nat, i: nat)
    requires ChainsOk(heap, table, lists) && h < HTABLE_SIZE && i < |lists[h]| && lists[h][i] in heap
    requires heap[lists[h][i]].prev == 0
    ensures |table| == HTABLE_SIZE && table[h] == lists[h][i]
  {
    assert ListOk(heap, table[h], lists[h], h) && NodeAt(heap, lists[h], i, h);
  }

  class StringTable {
    const hash: string -> nat
    var table: seq<Addr>
    var heap: Heap
    ghost var lists: seq<seq<Addr>>
    ghost var refs: Refs
    ghost var stuck: set<Addr>

    ghost predicate Valid()
      reads this
    {
      ChainsOk(heap, table, lists) && Interned(heap, hash) && Counted(heap, refs, stuck)
    }

    constructor (hash: string -> nat)
      ensures Valid() && heap == map[] && refs == map[] && stuck == {}
    {
      this.hash := hash;
      table := seq(HTABLE_SIZE, _ => 0);
      heap := map[];
      lists := seq(HTABLE_SIZE, _ => []);
      refs, stuck := map[], {};
    }

    ghost predicate Unheld(who: Holder)
      reads this
    {
      forall a | a in refs :: who !in refs[a]
    }

    /** The walk along one chain. */
    method Walk(cp: string) returns (xp: Addr, ghost k: nat)
      requires Valid()
      ensures var h := Home(hash, cp); |lists| == HTABLE_SIZE && k <= |lists[h]|
      ensures var h := Home(hash, cp); if xp == 0 then k == |lists[h]| else k < |lists[h]| && xp == lists[h][k]
      ensures xp != 0 ==> xp in heap && heap[xp].text == cp
      ensures xp == 0 ==> forall a | a in heap :: heap[a].text != cp
    {
      hide Home;
      var h := Home(hash, cp);
      assert h < HTABLE_SIZE by { HomeRange(hash, cp); }
      ghost var l := lists[h];
      assert ListOk(heap, table[h], l, h);
      xp, k := table[h], 0;
      assert l != [] ==> NodeAt(heap, l, 0, h) && l[0] in l;
      while xp != 0 && heap[xp].text != cp
        invariant k <= |l| && if xp == 0 then k == |l| else k < |l| && xp == l[k] && NodeAt(heap, l, k, h)
        invariant forall m | 0 <= m < k :: l[m] in heap && heap[l[m]].text != cp
        decreases |l| - k
      {
        xp := heap[xp].next;
        k := k + 1;
        assert k < |l| ==> NodeAt(heap, l, k, h) && l[k] in l;
      }
    }

    /** find_sstring: the string of that text, now first on its chain. */
    method Find(cp: string) returns (xp: Addr)
      requires Valid()
      modifies this`table, this`heap, this`lists
      ensures Valid() && SameStrings(old(heap), heap)
      ensures xp == 0 <==> forall a | a in heap :: heap[a].text != cp
      ensures xp != 0 ==> xp in heap && heap[xp].text == cp
      ensures xp != 0 ==> |table| == HTABLE_SIZE && table[Home(hash, cp)] == xp
    {
      hide Home, ChainsOk, Bypass, Prefix, Without, Counted;
      ghost var k;
      xp, k := Walk(cp);
      if xp == 0 { return; }
      var h := Home(hash, cp);
      HomeRange(hash, cp);
      ChainsNull(heap, table, lists, h, k);
      if heap[xp].prev != 0 {
        MovedToFront(heap, table, lists, h, k);
        SameMeaning(heap, Prefix(Bypass(heap, xp), table[h], xp, Bypass(heap, xp)[xp]), hash, refs, stuck);
        heap := Bypass(heap, xp);
        heap := Prefix(heap, table[h], xp, heap[xp]);
        table := table[h := xp];
        lists := lists[h := [xp] + Without(lists[h], k)];
      } else {
        AlreadyFirst(heap, table, lists, h, k);
      }
    }

    /** reference_sstring. */
    method Reference(a: Addr, ghost who: Holder)
      requires Valid() && a in heap && who !in refs[a]
      modifies this`heap, this`refs, this`stuck
      ensures Valid() && refs == old(refs)[a := old(refs)[a] + {who}]
      ensures stuck == Sticking(old(stuck), a, refs[a])
      ensures heap.Keys == old(heap).Keys && forall b | b in heap :: heap[b].text == old(heap)[b].text
    {
      hide ChainsOk, Interned, Counted, CountOk;
      HeldKeys(heap, refs, stuck);
      Recounted(heap, hash, refs, stuck, a, who);
      if heap[a].count != 0 {
        CountFrame(heap, table, lists, a, (heap[a].count + 1) % COUNTS);
        heap := heap[a := heap[a].(count := (heap[a].count + 1) % COUNTS)];
      }
      refs := refs[a := refs[a] + {who}];
      stuck := Sticking(stuck, a, refs[a]);
    }

    /** make_sstring; new memory is at an address where no string is. */
    method Make(cp: string, newAddr: Addr, ghost who: Holder) returns (xp: Addr)
      requires Valid() && newAddr != 0 && newAddr !in heap && Unheld(who)
      modifies this
      ensures Valid() && xp in heap && heap[xp].text == cp && who in refs[xp]
      ensures xp in old(heap) ==>
                && old(heap)[xp].text == cp && heap.Keys == old(heap).Keys
                && refs == old(refs)[xp := old(refs)[xp] + {who}]
                && stuck == Sticking(old(stuck), xp, refs[xp])
      ensures xp !in old(heap) ==> stuck == old(stuck)
      ensures xp !in old(heap) ==> xp == newAddr && heap.Keys == old(heap).Keys + {xp} && refs == old(refs)[xp := {who}]
      ensures xp !in old(heap) ==> forall b | b in old(heap) :: old(heap)[b].text != cp
      ensures forall b | b in old(heap) :: heap[b].text == old(heap)[b].text
    {
      hide Home, ChainsOk, Prefix, Bypass, Without, Interned, Counted;
      xp := Find(cp);
      if xp != 0 {
        assert xp in refs by { assert Counted(heap, refs, stuck); HeldKeys(heap, refs, stuck); }
        Reference(xp, who);
        return;
      }
      var h := Home(hash, cp);
      HomeRange(hash, cp);
      xp := newAddr;
      var x := Header(0, 0, h, 1, cp);
      ChainsShape(heap, table, lists);
      Inserted(heap, table, lists, h, xp, x);
      NewMeaning(heap, hash, refs, stuck, xp, x, who);
      SameMeaning(heap[xp := x], Prefix(heap, table[h], xp, x), hash, refs[xp := {who}], stuck);
      heap := Prefix(heap, table[h], xp, x);
      lists := lists[h := [xp] + lists[h]];
      table := table[h := xp];
      refs := refs[xp := {who}];
    }

    /** free_sstring: only the last holder's release frees, and a stuck count never does. */
    method Free(a: Addr, ghost who: Holder)
      requires Valid() && a in heap && who in refs[a]
      modifies this
      ensures stuck == old(stuck)
      ensures Valid() && forall b | b in heap :: b in old(heap) && heap[b].text == old(heap)[b].text
      ensures a in heap ==> heap.Keys == old(heap).Keys && refs == old(refs)[a := old(refs)[a] - {who}]
      ensures a !in heap ==> heap.Keys == old(heap).Keys - {a} && refs == old(refs) - {a} && old(refs)[a] == {who}
      ensures a !in heap <==> old(refs)[a] == {who} && a !in stuck
    {
      hide ChainsOk, Interned, Counted, CountOk;
      HeldKeys(heap, refs, stuck);
      Discounted(heap, hash, refs, stuck, a, who);
      if heap[a].count == 0 {
        refs := refs[a := refs[a] - {who}];
      } else if heap[a].count == 1 {
        Remove(a);
      } else {
        CountFrame(heap, table, lists, a, heap[a].count - 1);
        heap := heap[a := heap[a].(count := heap[a].count - 1)];
        refs := refs[a := refs[a] - {who}];
      }
    }

    method Remove(a: Addr)
      requires Valid() && a in heap && a !in stuck
      modifies this
      ensures stuck == old(stuck)
      ensures Valid() && heap.Keys == old(heap).Keys - {a} && refs == old(refs) - {a}
      ensures forall b | b in heap :: heap[b].text == old(heap)[b].text
    {
      hide ChainsOk, Bypass, Without, Home, Interned, Counted, SameStrings;
      HeldKeys(heap, refs, stuck);
      ghost var i := PlaceOf(heap, table, lists, a);
      var h := heap[a].hash;
      Dropped(heap, table, lists, h, i);
      DropMeaning(heap, Bypass(heap, a), hash, refs, stuck, a);
      var first, next := heap[a].prev == 0, heap[a].next;
      heap := Bypass(heap, a);
      if first { table := table[h := next]; }
      heap := heap - {a};
      lists := lists[h := Without(lists[h], i)];
      refs := refs - {a};
    }
  }

  lemma HomeRange(hash: string -> nat, s: string)
    ensures Home(hash, s) < HTABLE_SIZE
  {
  }

  lemma HeldKeys(heap: Heap, refs: Refs, stuck: set<Addr>)
    requires Counted(heap, refs, stuck)
    ensures refs.Keys == heap.Keys
  {
  }

  lemma ChainsShape(heap: Heap, table: seq<Addr>, lists: seq<seq<Addr>>)
    requires ChainsOk(heap, table, lists)
    ensures |table| == HTABLE_SIZE && |lists| == HTABLE_SIZE
  {
  }

  lemma PlaceOf(heap: Heap, table: seq<Addr>, lists: seq<seq<Addr>>, a: Addr) returns (i: nat)
    requires ChainsOk(heap, table, lists) && a in heap
    ensures |table| == HTABLE_SIZE && |lists| == HTABLE_SIZE && heap[a].hash < HTABLE_SIZE
    ensures i < |lists[heap[a].hash]| && lists[heap[a].hash][i] == a
  {
    i :| 0 <= i < |lists[heap[a].hash]| && lists[heap[a].hash][i] == a;
  }

  lemma CountFrame(heap: Heap, table: seq<Addr>, lists: seq<seq<Addr>>, a: Addr, n: nat)
    requires ChainsOk(heap, table, lists) && a in heap
    ensures ChainsOk(heap[a := heap[a].(count := n)], table, lists)
  {
    var heap' := heap[a := heap[a].(count := n)];
    forall h | 0 <= h < HTABLE_SIZE ensures ListOk(heap', table[h], lists[h], h) {
      assert ListOk(heap, table[h], lists[h], h);
      forall k | 0 <= k < |lists[h]| ensures NodeAt(heap', lists[h], k, h) { assert NodeAt(heap, lists[h], k, h); }
    }
  }

  lemma CountSet(heap: Heap, hash: string -> nat, refs: Refs, stuck: set<Addr>, a: Addr, n: nat, s: set<Holder>,
                 stuck': set<Addr>)
    requires Interned(heap, hash) && Counted(heap, refs, stuck) && a in heap
    requires CountOk(n, s, a in stuck') && stuck - {a} == stuck' - {a}
    ensures Interned(heap[a := heap[a].(count := n)], hash)
    ensures Counted(heap[a := heap[a].(count := n)], refs[a := s], stuck')
  {
    hide Home, CountOk;
    assert forall b | b != a :: b in stuck <==> b in stuck - {a};
    assert forall b | b != a :: b in stuck' <==> b in stuck' - {a};
  }

  lemma Recounted(heap: Heap, hash: string -> nat, refs: Refs, stuck: set<Addr>, a: Addr, who: Holder)
    requires Interned(heap, hash) && Counted(heap, refs, stuck) && a in heap && a in refs && who !in refs[a]
    ensures var n := if heap[a].count == 0 then 0 else (heap[a].count + 1) % COUNTS;
            && Interned(heap[a := heap[a].(count := n)], hash)
            && Counted(heap[a := heap[a].(count := n)], refs[a := refs[a] + {who}], Sticking(stuck, a, refs[a] + {who}))
            && (n == heap[a].count ==> heap[a := heap[a].(count := n)] == heap)
  {
    assert CountOk(heap[a].count, refs[a], a in stuck);
    var n := if heap[a].count == 0 then 0 else (heap[a].count + 1) % COUNTS;
    CountSet(heap, hash, refs, stuck, a, n, refs[a] + {who}, Sticking(stuck, a, refs[a] + {who}));
  }

  lemma Discounted(heap: Heap, hash: string -> nat, refs: Refs, stuck: set<Addr>, a: Addr, who: Holder)
    requires Interned(heap, hash) && Counted(heap, refs, stuck) && a in heap && a in refs && who in refs[a]
    ensures heap[a].count == 0 <==> a in stuck
    ensures heap[a].count == 0 ==> Counted(heap, refs[a := refs[a] - {who}], stuck)
    ensures a !in stuck ==> (heap[a].count == 1 <==> refs[a] == {who})
    ensures heap[a].count > 1 ==>
              var heap' := heap[a := heap[a].(count := heap[a].count - 1)];
              Interned(heap', hash) && Counted(heap', refs[a := refs[a] - {who}], stuck)
  {
    assert CountOk(heap[a].count, refs[a], a in stuck);
    if heap[a].count == 1 { LastHolder(refs[a], who); }
    if heap[a].count > 1 {
      CountSet(heap, hash, refs, stuck, a, heap[a].count - 1, refs[a] - {who}, stuck);
    }
  }

  lemma LastHolder(s: set<Holder>, who: Holder)
    requires who in s && |s| == 1
    ensures s == {who}
  {
    assert |s - {who}| == 0;
  }

  lemma NewMeaning(heap: Heap, hash: string -> nat, refs: Refs, stuck: set<Addr>, a: Addr, x: Header, who: Holder)
    requires Interned(heap, hash) && Counted(heap, refs, stuck)
    requires a !in heap && x.hash == Home(hash, x.text) && x.count == 1
    requires forall b | b in heap :: heap[b].text != x.text
    ensures Interned(heap[a := x], hash) && Counted(heap[a := x], refs[a := {who}], stuck)
  {
    hide Home;
  }

  lemma DropMeaning(heap: Heap, heap': Heap, hash: string -> nat, refs: Refs, stuck: set<Addr>, a: Addr)
    requires SameStrings(heap, heap') && Interned(heap, hash) && Counted(heap, refs, stuck) && a !in stuck
    ensures Interned(heap' - {a}, hash) && Counted(heap' - {a}, refs - {a}, stuck)
    ensures heap'.Keys == heap.Keys && forall b | b in heap :: heap'[b].text == heap[b].text
  {
    hide Home;
  }

  // ---- whole runs -------------------------------------------------------------------------

  /** A holder takes hold of a string by its text, or lets go of it. */
  datatype Use = Hold(text: string, who: Holder) | Release(text: string, who: Holder)

  /** Who holds which texts. */
  type Held = map<string, set<Holder>>

  function By(m: Held, s: string): set<Holder> { if s in m then m[s] else {} }

  function Change(m: Held, u: Use): Held {
    if u.Hold? then m[u.text := By(m, u.text) + {u.who}]
    else if By(m, u.text) == {u.who} then m - {u.text}
    else m[u.text := By(m, u.text) - {u.who}]
  }

  function Changed(m: Held, uses: seq<Use>): Held
    decreases uses
  {
    if uses == [] then m else Changed(Change(m, uses[0]), uses[1..])
  }

  /** A holder holds one string at a time, and lets go of what it holds; no text ever has
      more holders than can be counted. */
  ghost predicate Fair(m: Held, uses: seq<Use>)
    decreases uses
  {
    uses != [] ==> FairOne(m, uses[0]) && Fair(Change(m, uses[0]), uses[1..])
  }

  ghost predicate FairOne(m: Held, u: Use) {
    if u.Hold? then |By(m, u.text) + {u.who}| < COUNTS && forall s | s in m :: u.who !in m[s]
    else u.who in By(m, u.text)
  }

  ghost predicate InMemory(heap: Heap, s: string) { exists a :: a in heap && heap[a].text == s }

  /** In memory are just the texts that are held, each once, and every count is exact. */
  ghost predicate Exact(heap: Heap, refs: Refs, m: Held) {
    Mirrors(heap, refs, m) && forall a | a in heap :: heap[a].count == |refs[a]| > 0
  }

  ghost predicate Mirrors(heap: Heap, refs: Refs, m: Held) {
    && refs.Keys == heap.Keys
    && (forall a | a in heap :: HeldAt(heap, refs, m, a))
    && (forall s | s in m :: InMemory(heap, s))
  }

  ghost predicate HeldAt(heap: Heap, refs: Refs, m: Held, a: Addr)
    requires a in heap && a in refs
  {
    heap[a].text in m && refs[a] == m[heap[a].text]
  }

  lemma CountsExact(heap: Heap, refs: Refs, m: Held)
    requires Counted(heap, refs, {}) && Mirrors(heap, refs, m)
    ensures Exact(heap, refs, m)
  {
    hide InMemory, HeldAt;
    forall a | a in heap ensures heap[a].count == |refs[a]| > 0 {
      assert CountOk(heap[a].count, refs[a], a in {});
    }
  }

  /** All strings but perhaps one are in memory as before. */
  ghost predicate Kept(heap: Heap, heap': Heap, a: Addr) {
    && heap.Keys - {a} == heap'.Keys - {a}
    && forall b | b in heap && b in heap' :: heap'[b].text == heap[b].text
  }

  lemma Alone(heap: Heap, hash: string -> nat, a: Addr, b: Addr)
    requires Interned(heap, hash) && a in heap && b in heap && heap[a].text == heap[b].text
    ensures a == b
  {
  }

  lemma StillThere(heap: Heap, heap': Heap, a: Addr, s: string)
    requires Kept(heap, heap', a) && InMemory(heap, s) && (a in heap' || (a in heap && heap[a].text != s))
    ensures InMemory(heap', s)
  {
    var b :| b in heap && heap[b].text == s;
    assert b in heap.Keys - {a} || b == a;
    assert b in heap' && heap'[b].text == s;
  }

  lemma MirrorsMore(heap: Heap, heap': Heap, refs: Refs, refs': Refs, hash: string -> nat, m: Held, a: Addr, u: Use)
    requires Mirrors(heap, refs, m) && Interned(heap', hash) && u.Hold? && a in heap' && heap'[a].text == u.text
    requires Kept(heap, heap', a) && refs'.Keys == heap'.Keys
    requires refs' == refs[a := (if a in refs then refs[a] else {}) + {u.who}]
    requires a in heap || !InMemory(heap, u.text)
    ensures Mirrors(heap', refs', Change(m, u))
  {
    hide InMemory, Interned;
    var m' := Change(m, u);
    forall s | s in m' ensures InMemory(heap', s) {
      if s == u.text { OneThere(heap', a); } else { StillThere(heap, heap', a, s); }
    }
    assert a in heap ==> HeldAt(heap, refs, m, a);
    forall b | b in heap' ensures HeldAt(heap', refs', m', b) {
      if b != a {
        assert b in heap'.Keys - {a};
        assert HeldAt(heap, refs, m, b);
        if heap'[b].text == u.text { Alone(heap', hash, a, b); }
      }
    }
  }

  lemma OneThere(heap: Heap, a: Addr)
    requires a in heap
    ensures InMemory(heap, heap[a].text)
  {
  }

  lemma MirrorsLess(heap: Heap, heap': Heap, refs: Refs, refs': Refs, hash: string -> nat, m: Held, a: Addr, u: Use)
    requires Mirrors(heap, refs, m) && Interned(heap, hash) && u.Release? && a in heap && heap[a].text == u.text
    requires Kept(heap, heap', a) && refs'.Keys == heap'.Keys && a in refs && u.who in refs[a]
    requires if refs[a] == {u.who} then a !in heap' && refs' == refs - {a}
             else a in heap' && refs' == refs[a := refs[a] - {u.who}]
    ensures Mirrors(heap', refs', Change(m, u))
  {
    hide InMemory, Interned;
    var m' := Change(m, u);
    assert HeldAt(heap, refs, m, a);
    forall s | s in m' ensures InMemory(heap', s) { StillThere(heap, heap', a, s); }
    forall b | b in heap' ensures HeldAt(heap', refs', m', b) {
      if b != a {
        assert b in heap'.Keys - {a};
        assert HeldAt(heap, refs, m, b);
        if heap[b].text == u.text { Alone(heap, hash, a, b); }
      }
    }
  }

  /** Any run in which no text ever has more holders than can be counted: in memory are
      just the texts that are held, each once and with its exact count, so that every string
      is freed by its last holder and not before.  Memory is got from an allocator that may
      hand out any address not in use. */
  method RunUses(t: StringTable, uses: seq<Use>, alloc: set<Addr> -> Addr, ghost m: Held)
    requires t.Valid() && t.stuck == {} && Mirrors(t.heap, t.refs, m) && Fair(m, uses)
    requires forall s :: alloc(s) != 0 && alloc(s) !in s
    modifies t
    ensures t.Valid() && t.stuck == {} && Exact(t.heap, t.refs, Changed(m, uses))
  {
    hide ChainsOk, Interned, Counted, Mirrors, Exact, Change;
    ghost var end := Changed(m, uses);
    ghost var now := m;
    var i := 0;
    while i < |uses|
      modifies t
      invariant i <= |uses| && t.Valid() && t.stuck == {} && Mirrors(t.heap, t.refs, now)
      invariant Fair(now, uses[i..]) && Changed(now, uses[i..]) == end
    {
      NextUse(now, uses, i);
      RunUse(t, uses[i], alloc(t.heap.Keys), now);
      now := Change(now, uses[i]);
      i := i + 1;
    }
    CountsAre(t);
    CountsExact(t.heap, t.refs, now);
  }

  lemma NextUse(m: Held, uses: seq<Use>, i: nat)
    requires i < |uses| && Fair(m, uses[i..])
    ensures FairOne(m, uses[i]) && Fair(Change(m, uses[i]), uses[i + 1..])
    ensures Changed(m, uses[i..]) == Changed(Change(m, uses[i]), uses[i + 1..])
  {
    hide Change, FairOne;
    assert uses[i..][0] == uses[i] && uses[i..][1..] == uses[i + 1..];
  }

  lemma CountsAre(t: StringTable)
    requires t.Valid()
    ensures Counted(t.heap, t.refs, t.stuck)
  {
  }

  method RunUse(t: StringTable, u: Use, next: Addr, ghost m: Held)
    requires t.Valid() && t.stuck == {} && Mirrors(t.heap, t.refs, m) && FairOne(m, u)
    requires next != 0 && next !in t.heap
    modifies t
    ensures t.Valid() && t.stuck == {} && Mirrors(t.heap, t.refs, Change(m, u))
  {
    hide Change, Mirrors, FairOne, StringTable.Valid;
    if u.Hold? { RunHold(t, u, next, m); } else { RunRelease(t, u, m); }
  }

  lemma NobodyElse(t: StringTable, m: Held, u: Use)
    requires t.Valid() && Mirrors(t.heap, t.refs, m) && FairOne(m, u) && u.Hold?
    ensures t.Unheld(u.who)
  {
    hide Interned, ChainsOk, Counted, InMemory;
    forall a | a in t.refs ensures u.who !in t.refs[a] {
      assert HeldAt(t.heap, t.refs, m, a);
    }
  }

  /** What make_sstring has done. */
  lemma MadeKept(heap: Heap, heap': Heap, refs: Refs, refs': Refs, m: Held, a: Addr, u: Use)
    requires Mirrors(heap, refs, m) && FairOne(m, u) && u.Hold?
    requires a in heap' && forall b | b in heap :: b in heap' && heap'[b].text == heap[b].text
    requires a in heap ==>
               heap[a].text == u.text && heap'.Keys == heap.Keys && refs' == refs[a := refs[a] + {u.who}]
    requires a !in heap ==>
               && heap'.Keys == heap.Keys + {a} && refs' == refs[a := {u.who}]
               && forall b | b in heap :: heap[b].text != u.text
    ensures Kept(heap, heap', a) && refs' == refs[a := (if a in refs then refs[a] else {}) + {u.who}]
    ensures a in heap || !InMemory(heap, u.text)
    ensures |refs'[a]| < COUNTS
  {
    if a in heap {
      assert HeldAt(heap, refs, m, a);
    } else {
      Nowhere(heap, u.text);
      assert u.text !in m;
      assert {} + {u.who} == {u.who};
    }
  }

  lemma Nowhere(heap: Heap, s: string)
    requires forall b | b in heap :: heap[b].text != s
    ensures !InMemory(heap, s)
  {
  }

  lemma KeysAre(t: StringTable)
    requires t.Valid()
    ensures t.refs.Keys == t.heap.Keys && Interned(t.heap, t.hash)
  {
    hide Interned, ChainsOk;
  }

  lemma SameMirror(heap: Heap, heap': Heap, refs: Refs, m: Held)
    requires SameStrings(heap, heap') && Mirrors(heap, refs, m)
    ensures Mirrors(heap', refs, m)
  {
    forall s | s in m ensures InMemory(heap', s) {
      assert InMemory(heap, s);
      var b :| b in heap && heap[b].text == s;
      assert b in heap' && heap'[b].text == s;
    }
    forall a | a in heap' ensures HeldAt(heap', refs, m, a) { assert HeldAt(heap, refs, m, a); }
  }

  lemma HeldThere(heap: Heap, refs: Refs, m: Held, a: Addr, u: Use)
    requires Mirrors(heap, refs, m) && FairOne(m, u) && u.Release?
    requires a == 0 <==> forall b | b in heap :: heap[b].text != u.text
    requires a != 0 ==> a in heap && heap[a].text == u.text
    ensures a in heap && heap[a].text == u.text && a in refs && u.who in refs[a]
  {
    assert InMemory(heap, u.text);
    assert HeldAt(heap, refs, m, a);
  }

  lemma FreedKept(heap: Heap, heap': Heap, a: Addr)
    requires a in heap && forall b | b in heap' :: b in heap && heap'[b].text == heap[b].text
    requires heap'.Keys == heap.Keys || heap'.Keys == heap.Keys - {a}
    ensures Kept(heap, heap', a)
  {
  }

  method RunHold(t: StringTable, u: Use, next: Addr, ghost m: Held)
    requires t.Valid() && t.stuck == {} && Mirrors(t.heap, t.refs, m) && FairOne(m, u) && u.Hold?
    requires next != 0 && next !in t.heap
    modifies t
    ensures t.Valid() && t.stuck == {} && Mirrors(t.heap, t.refs, Change(m, u))
  {
    hide ChainsOk, Interned, Counted, Change, Mirrors, FairOne;
    ghost var heap, refs := t.heap, t.refs;
    NobodyElse(t, m, u);
    var a := t.Make(u.text, next, u.who);
    MadeKept(heap, t.heap, refs, t.refs, m, a, u);
    KeysAre(t);
    MirrorsMore(heap, t.heap, refs, t.refs, t.hash, m, a, u);
  }

  method RunRelease(t: StringTable, u: Use, ghost m: Held)
    requires t.Valid() && t.stuck == {} && Mirrors(t.heap, t.refs, m) && FairOne(m, u) && u.Release?
    modifies t
    ensures t.Valid() && t.stuck == {} && Mirrors(t.heap, t.refs, Change(m, u))
  {
    hide ChainsOk, Interned, Counted, Change, Mirrors, FairOne, SameStrings;
    ghost var heap := t.heap;
    var a := t.Find(u.text);
    SameMirror(heap, t.heap, t.refs, m);
    HeldThere(t.heap, t.refs, m, a, u);
    ghost var mid, refs := t.heap, t.refs;
    t.Free(a, u.who);
    FreedKept(mid, t.heap, a);
    KeysAre(t);
    MirrorsLess(mid, t.heap, refs, t.refs, t.hash, m, a, u);
  }
}
