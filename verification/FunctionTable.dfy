/** The function table of a program (src/postlang.y, src/interpret.c).

    hash_func threads the names of a program's functions through a table of exactly their
    number: slots that nobody hashes to are kept in a doubly linked list and filled with
    the functions that found their own slot taken.
 */
module FunctionTable {

  /** The address of a shared string; 0 is the null pointer. */
  type Addr = nat

  datatype Slot = Slot(name: Addr, next: int, index: int)

  /** PTR_HASH is any function of the address and the size. */
  type Hash = (Addr, nat) -> nat

  function Home(hash: Hash, a: Addr, size: nat): (h: nat)
    requires size > 0
    ensures h < size
  {
    hash(a, size) % size
  }

  // ---- the free slots ---------------------------------------------------------------

  function Before(l: seq<int>, k: int): int
    requires 0 <= k < |l|
  {
    if k == 0 then -1 else l[k - 1]
  }

  function After(l: seq<int>, k: int): int
    requires 0 <= k < |l|
  {
    if k == |l| - 1 then -1 else l[k + 1]
  }

  function First(l: seq<int>): int { if l == [] then -1 else l[0] }

  ghost predicate InRange(l: seq<int>, n: nat) {
    forall k | 0 <= k < |l| :: 0 <= l[k] < n
  }

  ghost predicate Distinct(l: seq<int>) {
    forall i, j | 0 <= i < j < |l| :: l[i] != l[j]
  }

  ghost predicate LinkAt(to: seq<Slot>, back: seq<int>, l: seq<int>, k: int) {
    && |back| == |to| && 0 <= k < |l| && 0 <= l[k] < |to|
    && to[l[k]].next == After(l, k) && back[l[k]] == Before(l, k)
  }

  /** The free slots, and only they, are linked both ways in the order of the list. */
  ghost predicate HolesOk(to: seq<Slot>, back: seq<int>, first: int, holes: seq<int>) {
    && |back| == |to| && first == First(holes) && InRange(holes, |to|) && Distinct(holes)
    && (forall k | 0 <= k < |holes| :: LinkAt(to, back, holes, k))
    && (forall s | 0 <= s < |to| :: to[s].name == 0 <==> s in holes)
  }

  function Without(l: seq<int>, k: nat): (r: seq<int>)
    requires k < |l|
    ensures |r| == |l| - 1
    ensures forall j | 0 <= j < k :: r[j] == l[j]
    ensures forall j | k <= j < |r| :: r[j] == l[j + 1]
  {
    l[..k] + l[k + 1..]
  }

  lemma WithoutMember(l: seq<int>, k: nat, x: int)
    requires k < |l| && Distinct(l)
    ensures x in Without(l, k) <==> x in l && x != l[k]
  {
    var r := Without(l, k);
    if x in l && x != l[k] {
      var j :| 0 <= j < |l| && l[j] == x;
      assert r[if j < k then j else j - 1] == x;
    }
    if x in r {
      var j :| 0 <= j < |r| && r[j] == x;
      assert l[if j < k then j else j + 1] == x;
    }
  }

  /** Unlinking a free slot that is taken. */
  function NextsTaken(to: seq<Slot>, back: seq<int>, p: nat, name: Addr, i: int): seq<Slot>
    requires p < |to| && p < |back| && (back[p] != -1 ==> 0 <= back[p] < |to|)
  {
    (if back[p] == -1 then to else to[back[p] := to[back[p]].(next := to[p].next)])[p := Slot(name, -1, i)]
  }

  function BacksTaken(to: seq<Slot>, back: seq<int>, p: nat): seq<int>
    requires p < |to| && p < |back| && (to[p].next != -1 ==> 0 <= to[p].next < |back|)
  {
    if to[p].next != -1 then back[to[p].next := back[p]] else back
  }

  lemma HoleTaken(to: seq<Slot>, back: seq<int>, first: int, holes: seq<int>, k: nat, name: Addr, i: int)
    requires HolesOk(to, back, first, holes) && k < |holes| && name != 0
    ensures var p := holes[k];
            && 0 <= p < |to| && (back[p] != -1 ==> 0 <= back[p] < |to|) && (to[p].next != -1 ==> 0 <= to[p].next < |to|)
            && back[p] == Before(holes, k) && to[p].next == After(holes, k)
            && HolesOk(NextsTaken(to, back, p, name, i), BacksTaken(to, back, p),
                       if back[p] == -1 then to[p].next else first, Without(holes, k))
  {
    hide Without;
    var p, holes' := holes[k], Without(holes, k);
    assert LinkAt(to, back, holes, k);
    var to', back' := NextsTaken(to, back, p, name, i), BacksTaken(to, back, p);
    assert InRange(holes', |to'|) && Distinct(holes');
    forall s | 0 <= s < |to'| ensures to'[s].name == 0 <==> s in holes' { WithoutMember(holes, k, s); }
    forall j | 0 <= j < |holes'| ensures LinkAt(to', back', holes', j) {
      HoleStep(to, back, first, holes, k, name, i, j);
    }
  }

  lemma HoleStep(to: seq<Slot>, back: seq<int>, first: int, holes: seq<int>, k: nat, name: Addr, i: int, j: nat)
    requires HolesOk(to, back, first, holes) && k < |holes| && j < |holes| - 1
    requires LinkAt(to, back, holes, k)
    ensures LinkAt(NextsTaken(to, back, holes[k], name, i), BacksTaken(to, back, holes[k]), Without(holes, k), j)
  {
    hide Without, InRange, Distinct;
    var o := if j < k then j else j + 1;
    Spread(holes, |to|, o, k);
    if k > 0 { Spread(holes, |to|, o, k - 1); }
    if k < |holes| - 1 { Spread(holes, |to|, o, k + 1); }
    var to', back' := NextsTaken(to, back, holes[k], name, i), BacksTaken(to, back, holes[k]);
    assert LinkAt(to, back, holes, o);
    hide HolesOk;
    assert to'[holes[o]].next == if o == k - 1 then After(holes, k) else After(holes, o);
    assert back'[holes[o]] == if o == k + 1 then Before(holes, k) else Before(holes, o);
  }

  lemma Spread(l: seq<int>, n: nat, i: nat, j: nat)
    requires InRange(l, n) && Distinct(l) && i < |l| && j < |l|
    ensures 0 <= l[i] < n && 0 <= l[j] < n && (i != j ==> l[i] != l[j])
  {
  }

  // ---- the chains -----------------------------------------------------------------------

  type Chains = seq<seq<nat>>

  /** Where the chain of home h goes on after its k-th function. */
  ghost function LinkAfter(chain: Chains, slot: seq<int>, h: nat, k: nat): int
    requires h < |chain| && k < |chain[h]|
  {
    if k + 1 < |chain[h]| && chain[h][k + 1] < |slot| then slot[chain[h][k + 1]] else -1
  }

  /** The k-th function of chain h is in its slot, and that slot leads on. */
  ghost predicate EntryAt(names: seq<Addr>, hash: Hash, to: seq<Slot>, chain: Chains, slot: seq<int>, h: nat, k: nat)
    requires |names| > 0
  {
    && h < |chain| && k < |chain[h]|
    && var j := chain[h][k];
       && j < |names| == |slot| && Home(hash, names[j], |names|) == h && 0 <= slot[j] < |to|
       && to[slot[j]] == Slot(names[j], LinkAfter(chain, slot, h, k), j)
       && (k == 0 ==> slot[j] == h) && (k > 0 ==> chain[h][k - 1] < j)
  }

  /** An occupied slot belongs to a function on a chain. */
  ghost predicate SlotAt(names: seq<Addr>, hash: Hash, to: seq<Slot>, chain: Chains, slot: seq<int>, s: nat)
    requires |names| > 0
  {
    s < |to| && to[s].name != 0 ==>
      && 0 <= to[s].index < |names| == |slot| == |chain| && slot[to[s].index] == s
      && to[s].index in chain[Home(hash, names[to[s].index], |names|)]
  }

  ghost predicate ChainsOk(names: seq<Addr>, hash: Hash, to: seq<Slot>, chain: Chains, slot: seq<int>) {
    && |names| > 0 && |to| == |names| && |chain| == |names| && |slot| == |names| && 0 !in names
    && (forall h, k | 0 <= h < |chain| && 0 <= k < |chain[h]| :: EntryAt(names, hash, to, chain, slot, h, k))
    && (forall s | 0 <= s < |to| :: SlotAt(names, hash, to, chain, slot, s))
  }

  /** A function takes its own slot, which was free. */
  lemma PlaceHome(names: seq<Addr>, hash: Hash, to: seq<Slot>, to': seq<Slot>, chain: Chains, slot: seq<int>, i: nat)
    requires ChainsOk(names, hash, to, chain, slot) && i < |names|
    requires var p := Home(hash, names[i], |names|);
             && to[p].name == 0 && |to'| == |to| && to'[p] == Slot(names[i], -1, i)
             && forall s | 0 <= s < |to| && s != p :: to'[s].name == to[s].name && (to[s].name != 0 ==> to'[s] == to[s])
    requires i !in chain[Home(hash, names[i], |names|)]
    ensures var p := Home(hash, names[i], |names|);
            chain[p] == [] && ChainsOk(names, hash, to', chain[p := [i]], slot[i := p])
  {
    hide Home;
    var p := Home(hash, names[i], |names|);
    assert |chain[p]| > 0 ==> EntryAt(names, hash, to, chain, slot, p, 0);
    var chain', slot' := chain[p := [i]], slot[i := p];
    forall h, k | 0 <= h < |chain'| && 0 <= k < |chain'[h]| ensures EntryAt(names, hash, to', chain', slot', h, k) {
      if h != p {
        assert EntryAt(names, hash, to, chain, slot, h, k);
        if k + 1 < |chain[h]| { assert EntryAt(names, hash, to, chain, slot, h, k + 1); }
      }
    }
    forall s | 0 <= s < |to'| ensures SlotAt(names, hash, to', chain', slot', s) {
      assert SlotAt(names, hash, to, chain, slot, s);
    }
  }

  /** A function whose own slot is taken goes to a free slot at the end of its chain. */
  lemma Append(names: seq<Addr>, hash: Hash, to: seq<Slot>, chain: Chains, slot: seq<int>, c: nat, s: nat)
    requires ChainsOk(names, hash, to, chain, slot) && c < |names| && s < |to| && to[s].name == 0
    requires var l := chain[Home(hash, names[c], |names|)]; l != [] && l[|l| - 1] < c && c !in l
    ensures var h := Home(hash, names[c], |names|); var j := chain[h][|chain[h]| - 1];
            && j < |slot| && 0 <= slot[j] < |to| && slot[j] != s && to[slot[j]].name != 0 && to[slot[j]].next == -1
            && ChainsOk(names, hash, to[s := Slot(names[c], -1, c)][slot[j] := to[slot[j]].(next := s)],
                        chain[h := chain[h] + [c]], slot[c := s])
  {
    hide Home;
    var h := Home(hash, names[c], |names|);
    var n := |chain[h]| - 1;
    var j := chain[h][n];
    assert EntryAt(names, hash, to, chain, slot, h, n);
    var to', chain', slot' := to[s := Slot(names[c], -1, c)][slot[j] := to[slot[j]].(next := s)],
        chain[h := chain[h] + [c]], slot[c := s];
    forall g, k | 0 <= g < |chain'| && 0 <= k < |chain'[g]| ensures EntryAt(names, hash, to', chain', slot', g, k) {
      AppendEntry(names, hash, to, chain, slot, c, s, g, k);
    }
    forall x | 0 <= x < |to'| ensures SlotAt(names, hash, to', chain', slot', x) {
      AppendSlot(names, hash, to, chain, slot, c, s, x);
    }
  }

  lemma AppendSlot(names: seq<Addr>, hash: Hash, to: seq<Slot>, chain: Chains, slot: seq<int>, c: nat, s: nat, x: nat)
    requires ChainsOk(names, hash, to, chain, slot) && c < |names| && s < |to| && to[s].name == 0 && x < |to|
    requires var l := chain[Home(hash, names[c], |names|)]; l != [] && c !in l
    requires var l := chain[Home(hash, names[c], |names|)]; var j := l[|l| - 1];
               j < |slot| && 0 <= slot[j] < |to| && slot[j] != s
    ensures var h := Home(hash, names[c], |names|); var j := chain[h][|chain[h]| - 1];
            SlotAt(names, hash, to[s := Slot(names[c], -1, c)][slot[j] := to[slot[j]].(next := s)],
                   chain[h := chain[h] + [c]], slot[c := s], x)
  {
    hide Home;
    assert SlotAt(names, hash, to, chain, slot, x);
  }

  lemma AppendEntry(names: seq<Addr>, hash: Hash, to: seq<Slot>, chain: Chains, slot: seq<int>, c: nat, s: nat, g: nat,
                    k: nat)
    requires ChainsOk(names, hash, to, chain, slot) && c < |names| && s < |to| && to[s].name == 0 && g < |names|
    requires var l := chain[Home(hash, names[c], |names|)]; l != [] && l[|l| - 1] < c && c !in l
    requires var l := chain[Home(hash, names[c], |names|)]; var j := l[|l| - 1];
               j < |slot| && 0 <= slot[j] < |to| && slot[j] != s
    requires k < |chain[Home(hash, names[c], |names|) := chain[Home(hash, names[c], |names|)] + [c]][g]|
    ensures var h := Home(hash, names[c], |names|); var j := chain[h][|chain[h]| - 1];
            EntryAt(names, hash, to[s := Slot(names[c], -1, c)][slot[j] := to[slot[j]].(next := s)],
                    chain[h := chain[h] + [c]], slot[c := s], g, k)
  {
    hide Home, SlotAt;
    var h := Home(hash, names[c], |names|);
    var n := |chain[h]| - 1;
    assert EntryAt(names, hash, to, chain, slot, h, n);
    if !(g == h && k == n + 1) {
      assert EntryAt(names, hash, to, chain, slot, g, k);
      assert chain[g][k] in chain[g];
      if k + 1 < |chain[g]| {
        assert EntryAt(names, hash, to, chain, slot, g, k + 1);
        assert chain[g][k + 1] in chain[g];
      }
    }
  }

  // ---- functions waiting for a free slot --------------------------------------------------

  ghost predicate CollAt(idx: seq<int>, coll: seq<int>, k: int) {
    0 <= k < |coll| && 0 <= coll[k] < |idx| && idx[coll[k]] == After(coll, k)
  }

  ghost predicate Waiting(names: seq<Addr>, hash: Hash, chain: Chains, c: int)
    requires |names| > 0 && |chain| == |names|
  {
    0 <= c < |names| && var l := chain[Home(hash, names[c], |names|)]; l != [] && l[|l| - 1] < c && c !in l
  }

  /** The waiting functions, in order, linked through their hash indices. */
  ghost predicate CollOk(names: seq<Addr>, hash: Hash, chain: Chains, idx: seq<int>, coll: seq<int>)
    requires |names| > 0 && |chain| == |names|
  {
    && |idx| == |names|
    && (forall i, j | 0 <= i < j < |coll| :: coll[i] < coll[j])
    && (forall k | 0 <= k < |coll| :: CollAt(idx, coll, k))
    && (forall k | 0 <= k < |coll| :: Waiting(names, hash, chain, coll[k]))
  }

  /** Function j waits, or is on its chain and knows its slot. */
  ghost predicate Settled(names: seq<Addr>, hash: Hash, chain: Chains, idx: seq<int>, slot: seq<int>, coll: seq<int>,
                          j: nat)
    requires |names| > 0 && |chain| == |names| && |idx| == |names| && |slot| == |names|
  {
    j < |names| && (j in coll || (j in chain[Home(hash, names[j], |names|)] && idx[j] == slot[j]))
  }

  /** The functions below n have been dealt with. */
  ghost predicate Stage(names: seq<Addr>, hash: Hash, to: seq<Slot>, back: seq<int>, idx: seq<int>, hole: int,
                        holes: seq<int>, chain: Chains, slot: seq<int>, coll: seq<int>, n: nat) {
    && ChainsOk(names, hash, to, chain, slot) && HolesOk(to, back, hole, holes) && CollOk(names, hash, chain, idx, coll)
    && n <= |names| && |holes| == |names| - n + |coll|
    && (forall j | 0 <= j < n :: Settled(names, hash, chain, idx, slot, coll, j))
    && (forall k | 0 <= k < |coll| :: coll[k] < n)
    && (forall h, k | 0 <= h < |chain| && 0 <= k < |chain[h]| :: chain[h][k] < n)
  }

  /** As long as no waiting function has been placed, a chain is one function at home. */
  ghost predicate Single(chain: Chains) { forall h | 0 <= h < |chain| :: |chain[h]| <= 1 }

  /** The i-th function's own slot is free. */
  lemma StepFree(names: seq<Addr>, hash: Hash, to: seq<Slot>, back: seq<int>, idx: seq<int>, hole: int,
                 holes: seq<int>, chain: Chains, slot: seq<int>, coll: seq<int>, i: nat, k: nat)
    requires Stage(names, hash, to, back, idx, hole, holes, chain, slot, coll, i) && i < |names| && Single(chain)
    requires k < |holes| && holes[k] == Home(hash, names[i], |names|)
    ensures var p := holes[k];
            && (back[p] != -1 ==> 0 <= back[p] < |to|) && (to[p].next != -1 ==> 0 <= to[p].next < |to|)
            && Stage(names, hash, NextsTaken(to, back, p, names[i], i), BacksTaken(to, back, p), idx[i := p],
                     if back[p] == -1 then to[p].next else hole, Without(holes, k),
                     chain[p := [i]], slot[i := p], coll, i + 1)
            && Single(chain[p := [i]])
  {
    hide Home, Without;
    var p := holes[k];
    HoleTaken(to, back, hole, holes, k, names[i], i);
    var to', idx', chain', slot' := NextsTaken(to, back, p, names[i], i), idx[i := p], chain[p := [i]], slot[i := p];
    NamesKept(to, back, hole, holes, k, names[i], i);
    assert i !in chain[p];
    PlaceHome(names, hash, to, to', chain, slot, i);
    FreeColl(names, hash, chain, idx, coll, i, p);
    forall j | 0 <= j < i + 1 ensures Settled(names, hash, chain', idx', slot', coll, j) {
      if j < i { assert Settled(names, hash, chain, idx, slot, coll, j); }
    }
  }

  lemma NamesKept(to: seq<Slot>, back: seq<int>, hole: int, holes: seq<int>, k: nat, name: Addr, i: int)
    requires HolesOk(to, back, hole, holes) && k < |holes| && name != 0 && 0 <= holes[k] < |to|
    requires back[holes[k]] == Before(holes, k)
    ensures var to' := NextsTaken(to, back, holes[k], name, i);
            && |to'| == |to| && to'[holes[k]] == Slot(name, -1, i)
            && forall s | 0 <= s < |to| && s != holes[k] ::
                to'[s].name == to[s].name && (to[s].name != 0 ==> to'[s] == to[s])
  {
    hide LinkAt;
    if k > 0 { assert holes[k - 1] in holes; }
  }

  lemma FreeColl(names: seq<Addr>, hash: Hash, chain: Chains, idx: seq<int>, coll: seq<int>, i: nat, p: nat)
    requires |names| > 0 && |chain| == |names| && CollOk(names, hash, chain, idx, coll) && i < |names| && p < |chain|
               && chain[p] == []
    requires forall k | 0 <= k < |coll| :: coll[k] < i
    ensures CollOk(names, hash, chain[p := [i]], idx[i := p], coll)
  {
    hide Home;
    forall k | 0 <= k < |coll| ensures CollAt(idx[i := p], coll, k) && Waiting(names, hash, chain[p := [i]], coll[k]) {
      assert CollAt(idx, coll, k) && Waiting(names, hash, chain, coll[k]);
    }
  }

  /** The i-th function's own slot is taken: it waits. */
  lemma StepWait(names: seq<Addr>, hash: Hash, to: seq<Slot>, back: seq<int>, idx: seq<int>, hole: int,
                 holes: seq<int>, chain: Chains, slot: seq<int>, coll: seq<int>, i: nat)
    requires Stage(names, hash, to, back, idx, hole, holes, chain, slot, coll, i) && i < |names| && Single(chain)
    requires to[Home(hash, names[i], |names|)].name != 0
    ensures var idx' := (if coll == [] then idx else idx[coll[|coll| - 1] := i])[i := -1];
            Stage(names, hash, to, back, idx', hole, holes, chain, slot, coll + [i], i + 1)
  {
    hide Home, HolesOk;
    var p := Home(hash, names[i], |names|);
    assert SlotAt(names, hash, to, chain, slot, p);
    var q := Home(hash, names[to[p].index], |names|);
    assert |chain[q]| <= 1;
    assert EntryAt(names, hash, to, chain, slot, q, 0);
    assert Waiting(names, hash, chain, i);
    WaitColl(names, hash, chain, idx, coll, i);
    var idx', coll' := (if coll == [] then idx else idx[coll[|coll| - 1] := i])[i := -1], coll + [i];
    forall j | 0 <= j < i + 1 ensures Settled(names, hash, chain, idx', slot, coll', j) {
      if j < i { assert Settled(names, hash, chain, idx, slot, coll, j); }
      assert coll'[|coll|] == i;
    }
  }

  lemma WaitColl(names: seq<Addr>, hash: Hash, chain: Chains, idx: seq<int>, coll: seq<int>, i: nat)
    requires |names| > 0 && |chain| == |names| && CollOk(names, hash, chain, idx, coll)
               && Waiting(names, hash, chain, i)
    requires forall k | 0 <= k < |coll| :: coll[k] < i
    ensures CollOk(names, hash, chain, (if coll == [] then idx else idx[coll[|coll| - 1] := i])[i := -1], coll + [i])
  {
    hide Home;
    var idx', coll' := (if coll == [] then idx else idx[coll[|coll| - 1] := i])[i := -1], coll + [i];
    forall k | 0 <= k < |coll'| ensures CollAt(idx', coll', k) && Waiting(names, hash, chain, coll'[k]) {
      if k < |coll| {
        assert CollAt(idx, coll, k) && Waiting(names, hash, chain, coll[k]);
        assert CollAt(idx, coll, |coll| - 1);
        assert k < |coll| - 1 ==> coll[k] < coll[|coll| - 1];
      }
    }
  }

  /** The first waiting function gets the first free slot. */
  lemma StepPlug(names: seq<Addr>, hash: Hash, to: seq<Slot>, back: seq<int>, idx: seq<int>, hole: int,
                 holes: seq<int>, chain: Chains, slot: seq<int>, coll: seq<int>)
    requires Stage(names, hash, to, back, idx, hole, holes, chain, slot, coll, |names|) && coll != []
    ensures holes != [] && hole == holes[0] && 0 <= hole < |to| && 0 <= coll[0] < |names|
              && idx[coll[0]] == First(coll[1..])
    ensures to[hole].next != -1 ==> 0 <= to[hole].next < |back|
    ensures var c, s := coll[0], hole; var h := Home(hash, names[c], |names|);
            && chain[h] != [] && var j := chain[h][|chain[h]| - 1];
            && j < |slot| && 0 <= slot[j] < |to| && slot[j] != s
            && Stage(names, hash, to[s := Slot(names[c], -1, c)][slot[j] := to[slot[j]].(next := s)],
                     BacksTaken(to, back, s), idx[c := s],
                     to[s].next, holes[1..], chain[h := chain[h] + [c]], slot[c := s], coll[1..], |names|)
  {
    hide Home, BacksTaken, Without;
    var c, s := coll[0], hole;
    assert CollAt(idx, coll, 0) && Waiting(names, hash, chain, c);
    assert idx[c] == First(coll[1..]);
    var h := Home(hash, names[c], |names|);
    HoleTaken(to, back, hole, holes, 0, names[c], c);
    assert holes[0] in holes;
    Append(names, hash, to, chain, slot, c, s);
    var j := chain[h][|chain[h]| - 1];
    assert Without(holes, 0) == holes[1..];
    var to1 := to[s := Slot(names[c], -1, c)];
    assert NextsTaken(to, back, s, names[c], c) == to1;
    HolesFrame(to1, BacksTaken(to, back, s), to[s].next, holes[1..], slot[j], s);
    PlugColl(names, hash, chain, idx, coll, s);
    PlugRest(names, hash, chain, idx, slot, coll, s);
  }

  lemma HolesFrame(to: seq<Slot>, back: seq<int>, hole: int, holes: seq<int>, t: nat, n: int)
    requires HolesOk(to, back, hole, holes) && t < |to| && to[t].name != 0
    ensures HolesOk(to[t := to[t].(next := n)], back, hole, holes)
  {
    var to' := to[t := to[t].(next := n)];
    forall k | 0 <= k < |holes| ensures LinkAt(to', back, holes, k) {
      assert LinkAt(to, back, holes, k) && holes[k] in holes;
    }
  }

  lemma PlugColl(names: seq<Addr>, hash: Hash, chain: Chains, idx: seq<int>, coll: seq<int>, s: int)
    requires |names| > 0 && |chain| == |names| && CollOk(names, hash, chain, idx, coll) && coll != []
               && 0 <= coll[0] < |names|
    ensures var h := Home(hash, names[coll[0]], |names|);
            CollOk(names, hash, chain[h := chain[h] + [coll[0]]], idx[coll[0] := s], coll[1..])
  {
    hide Home;
    var c := coll[0];
    var h := Home(hash, names[c], |names|);
    var chain' := chain[h := chain[h] + [c]];
    forall k | 0 <= k < |coll[1..]|
      ensures CollAt(idx[c := s], coll[1..], k) && Waiting(names, hash, chain', coll[1..][k])
    {
      assert CollAt(idx, coll, k + 1) && Waiting(names, hash, chain, coll[k + 1]);
      assert coll[0] < coll[k + 1];
    }
  }

  lemma PlugRest(names: seq<Addr>, hash: Hash, chain: Chains, idx: seq<int>, slot: seq<int>, coll: seq<int>, s: int)
    requires |names| > 0 && |chain| == |names| && |idx| == |names| && |slot| == |names| && coll != []
               && 0 <= coll[0] < |names|
    requires forall j | 0 <= j < |names| :: Settled(names, hash, chain, idx, slot, coll, j)
    requires Waiting(names, hash, chain, coll[0])
    ensures var h := Home(hash, names[coll[0]], |names|); var chain' := chain[h := chain[h] + [coll[0]]];
            var idx', slot', coll' := idx[coll[0] := s], slot[coll[0] := s], coll[1..];
            forall j | 0 <= j < |names| :: Settled(names, hash, chain', idx', slot', coll', j)
  {
    hide Home;
    var c := coll[0];
    var h := Home(hash, names[c], |names|);
    var chain' := chain[h := chain[h] + [c]];
    assert chain'[h][|chain[h]|] == c;
    var idx', slot', coll' := idx[c := s], slot[c := s], coll[1..];
    forall j | 0 <= j < |names| ensures Settled(names, hash, chain', idx', slot', coll', j) {
      assert Settled(names, hash, chain, idx, slot, coll, j);
      var g := Home(hash, names[j], |names|);
      if j in chain[g] { var k :| 0 <= k < |chain[g]| && chain[g][k] == j; assert chain'[g][k] == j; }
    }
  }

  // ---- building the table -----------------------------------------------------------------

  /** Every function is on the chain of its home. */
  ghost predicate Complete(names: seq<Addr>, hash: Hash, chain: Chains)
    requires |names| > 0 && |chain| == |names|
  {
    forall j | 0 <= j < |names| :: j in chain[Home(hash, names[j], |names|)]
  }

  ghost predicate Full(to: seq<Slot>) { forall s | 0 <= s < |to| :: to[s].name != 0 }

  ghost predicate TableOk(names: seq<Addr>, hash: Hash, to: seq<Slot>) {
    && |to| == |names| && Full(to)
    && (|names| > 0 ==> exists chain, slot :: ChainsOk(names, hash, to, chain, slot) && Complete(names, hash, chain))
  }

  method Prepare(names: seq<Addr>, hash: Hash) returns (to: array<Slot>, back: array<int>, idx: array<int>,
                                                        ghost holes: seq<int>, ghost chain: Chains,
                                                        ghost slot: seq<int>)
    requires 0 !in names && |names| > 0
    ensures fresh(to) && fresh(back) && fresh(idx) && back != idx
    ensures Stage(names, hash, to[..], back[..], idx[..], 0, holes, chain, slot, [], 0) && Single(chain)
  {
    var size := |names|;
    to, back, idx := new Slot[size](_ => Slot(0, -1, 0)), new int[size], new int[size];
    var i := 0;
    while i < size
      modifies to, back
      invariant i <= size && forall k | 0 <= k < i :: to[k] == Slot(0, k + 1, 0) && back[k] == k - 1
    {
      to[i] := Slot(0, i + 1, 0);
      back[i] := i - 1;
      i := i + 1;
    }
    to[size - 1] := Slot(0, -1, 0);
    holes, chain, slot := seq(size, k => k), seq(size, _ => []), seq(size, _ => -1);
    forall k | 0 <= k < |holes| ensures LinkAt(to[..], back[..], holes, k) { }
    forall s | 0 <= s < size ensures s in holes { assert holes[s] == s; }
  }

  /** The first pass: functions that find their own slot free take it, the others wait. */
  method PlaceAll(names: seq<Addr>, hash: Hash, to: array<Slot>, back: array<int>, idx: array<int>,
                  ghost holes0: seq<int>, ghost chain0: Chains, ghost slot0: seq<int>)
    returns (hole: int, first: int, ghost holes: seq<int>, ghost chain: Chains, ghost slot: seq<int>,
             ghost coll: seq<int>)
    requires back != idx && Stage(names, hash, to[..], back[..], idx[..], 0, holes0, chain0, slot0, [], 0)
               && Single(chain0)
    modifies to, back, idx
    ensures Stage(names, hash, to[..], back[..], idx[..], hole, holes, chain, slot, coll, |names|)
              && first == First(coll)
  {
    hide Stage, Home, HolesOk, ChainsOk, Single;
    hole, first, holes, chain, slot, coll := 0, -1, holes0, chain0, slot0, [];
    var last := -1;
    var i := 0;
    StageShape(names, hash, to[..], back[..], idx[..], hole, holes, chain, slot, coll, 0);
    while i < |names|
      invariant i <= |names| && Single(chain)
      invariant Stage(names, hash, to[..], back[..], idx[..], hole, holes, chain, slot, coll, i)
      invariant first == First(coll) && (coll != [] ==> last == coll[|coll| - 1])
    {
      StageShape(names, hash, to[..], back[..], idx[..], hole, holes, chain, slot, coll, i);
      var probe := Home(hash, names[i], |names|);
      ghost var t, b, x := to[..], back[..], idx[..];
      if to[probe].name == 0 {
        ghost var k := HoleIndex(t, b, hole, holes, probe);
        StepFree(names, hash, t, b, x, hole, holes, chain, slot, coll, i, k);
        var next, prev := to[probe].next, back[probe];
        if prev == -1 { hole := next; } else { to[prev] := to[prev].(next := next); }
        if next != -1 { back[next] := prev; }
        to[probe] := Slot(names[i], -1, i);
        idx[i] := probe;
        assert to[..] == NextsTaken(t, b, probe, names[i], i) && back[..] == BacksTaken(t, b, probe)
            && idx[..] == x[i := probe];
        holes, chain, slot := Without(holes, k), chain[probe := [i]], slot[i := probe];
      } else {
        StepWait(names, hash, t, b, x, hole, holes, chain, slot, coll, i);
        if first == -1 { first := i; } else { idx[last] := i; }
        last := i;
        idx[i] := -1;
        assert to[..] == t && back[..] == b && idx[..] == (if coll == [] then x else x[coll[|coll| - 1] := i])[i := -1];
        coll := coll + [i];
      }
      i := i + 1;
    }
  }

  lemma StageShape(names: seq<Addr>, hash: Hash, to: seq<Slot>, back: seq<int>, idx: seq<int>, hole: int,
                   holes: seq<int>, chain: Chains, slot: seq<int>, coll: seq<int>, n: nat)
    requires Stage(names, hash, to, back, idx, hole, holes, chain, slot, coll, n)
    ensures |names| > 0 && |to| == |names| && |back| == |names| && |idx| == |names| && |chain| == |names|
              && |slot| == |names|
    ensures HolesOk(to, back, hole, holes) && (forall k | 0 <= k < |coll| :: 0 <= coll[k] < n) && n <= |names|
  {
    forall k | 0 <= k < |coll| ensures 0 <= coll[k] { assert CollAt(idx, coll, k); }
  }

  lemma HoleIndex(to: seq<Slot>, back: seq<int>, hole: int, holes: seq<int>, p: nat) returns (k: nat)
    requires HolesOk(to, back, hole, holes) && p < |to| && to[p].name == 0
    ensures k < |holes| && holes[k] == p && LinkAt(to, back, holes, k)
  {
    k :| 0 <= k < |holes| && holes[k] == p;
  }

  /** The second pass: the waiting functions fill the free slots. */
  method PlugAll(names: seq<Addr>, hash: Hash, to: array<Slot>, back: array<int>, idx: array<int>,
                 hole0: int, first0: int,
                 ghost holes0: seq<int>, ghost chain0: Chains, ghost slot0: seq<int>, ghost coll0: seq<int>)
    returns (ghost chain: Chains, ghost slot: seq<int>)
    requires Stage(names, hash, to[..], back[..], idx[..], hole0, holes0, chain0, slot0, coll0, |names|)
               && first0 == First(coll0)
    modifies to, idx
    ensures |names| > 0 && |chain| == |names| && ChainsOk(names, hash, to[..], chain, slot)
              && Complete(names, hash, chain)
    ensures to.Length == |names| && idx.Length == |names| && Full(to[..])
    ensures forall j | 0 <= j < |names| :: 0 <= idx[j] < |names| && to[idx[j]].index == j && to[idx[j]].name == names[j]
  {
    hide Stage, Home, HolesOk, ChainsOk, CollOk, Waiting;
    var hole, first := hole0, first0;
    ghost var holes, coll, b := holes0, coll0, back[..];
    chain, slot := chain0, slot0;
    while first != -1
      invariant Stage(names, hash, to[..], b, idx[..], hole, holes, chain, slot, coll, |names|) && first == First(coll)
      decreases |coll|
    {
      StageShape(names, hash, to[..], b, idx[..], hole, holes, chain, slot, coll, |names|);
      ghost var t, x := to[..], idx[..];
      StepPlug(names, hash, t, b, x, hole, holes, chain, slot, coll);
      var i, c := hole, first;
      ghost var h := Home(hash, names[c], |names|);
      ghost var end := slot[chain[h][|chain[h]| - 1]];
      var next := idx[c];
      hole := to[i].next;
      to[i] := Slot(names[c], -1, c);
      idx[c] := i;
      assert to[..] == t[i := Slot(names[c], -1, c)];
      StageChains(names, hash, t, b, x, i, holes, chain, slot, coll);
      var probe := LastOnChain(names, hash, to, t, chain, slot, Home(hash, names[c], |names|), i);
      to[probe] := to[probe].(next := i);
      assert to[..] == t[i := Slot(names[c], -1, c)][end := t[end].(next := i)] && idx[..] == x[c := i];
      b, holes, chain, slot, coll := BacksTaken(t, b, i), holes[1..], chain[h := chain[h] + [c]], slot[c := i],
          coll[1..];
      first := next;
    }
    StageShape(names, hash, to[..], b, idx[..], hole, holes, chain, slot, coll, |names|);
    AllSettled(names, hash, to[..], b, idx[..], hole, holes, chain, slot);
  }

  lemma StageChains(names: seq<Addr>, hash: Hash, to: seq<Slot>, back: seq<int>, idx: seq<int>, hole: int,
                    holes: seq<int>, chain: Chains, slot: seq<int>, coll: seq<int>)
    requires Stage(names, hash, to, back, idx, hole, holes, chain, slot, coll, |names|) && holes != []
    ensures ChainsOk(names, hash, to, chain, slot) && 0 <= holes[0] < |to| && to[holes[0]].name == 0
  {
    assert holes[0] in holes;
  }

  /** The walk to the end of a chain; slot i has just been filled and is on none. */
  method LastOnChain(names: seq<Addr>, hash: Hash, to: array<Slot>, ghost t: seq<Slot>, ghost chain: Chains,
                     ghost slot: seq<int>,
                     h: nat, ghost i: nat) returns (probe: nat)
    requires ChainsOk(names, hash, t, chain, slot) && h < |chain| && chain[h] != [] && to.Length == |t|
    requires i < |t| && t[i].name == 0 && forall s | 0 <= s < |t| && s != i :: to[s] == t[s]
    ensures probe < to.Length && chain[h][|chain[h]| - 1] < |slot| && probe == slot[chain[h][|chain[h]| - 1]]
  {
    hide Home, SlotAt;
    probe := h;
    ghost var k := 0;
    assert EntryAt(names, hash, t, chain, slot, h, 0);
    while to[probe].next != -1
      invariant probe < to.Length && k < |chain[h]| && EntryAt(names, hash, t, chain, slot, h, k)
                  && probe == slot[chain[h][k]]
      decreases |chain[h]| - k
    {
      probe := to[probe].next;
      k := k + 1;
      assert EntryAt(names, hash, t, chain, slot, h, k);
    }
    assert k + 1 < |chain[h]| ==> EntryAt(names, hash, t, chain, slot, h, k + 1);
  }

  lemma AllSettled(names: seq<Addr>, hash: Hash, to: seq<Slot>, back: seq<int>, idx: seq<int>, hole: int,
                   holes: seq<int>, chain: Chains, slot: seq<int>)
    requires Stage(names, hash, to, back, idx, hole, holes, chain, slot, [], |names|)
    ensures |names| > 0 && |chain| == |names| && |to| == |names| && |idx| == |names|
    ensures ChainsOk(names, hash, to, chain, slot) && Complete(names, hash, chain) && Full(to)
    ensures forall j | 0 <= j < |names| :: 0 <= idx[j] < |names| && to[idx[j]].index == j && to[idx[j]].name == names[j]
  {
    hide Home;
    forall j | 0 <= j < |names|
      ensures j in chain[Home(hash, names[j], |names|)] && 0 <= idx[j] < |names| && to[idx[j]].index == j
                && to[idx[j]].name == names[j]
    {
      assert Settled(names, hash, chain, idx, slot, [], j);
      var h := Home(hash, names[j], |names|);
      var k :| 0 <= k < |chain[h]| && chain[h][k] == j;
      assert EntryAt(names, hash, to, chain, slot, h, k);
    }
  }

  /** hash_func. */
  method HashFunc(names: seq<Addr>, hash: Hash) returns (to: array<Slot>, idx: array<int>)
    requires 0 !in names
    ensures to.Length == idx.Length == |names| && fresh(to) && fresh(idx) && TableOk(names, hash, to[..])
    ensures forall j | 0 <= j < |names| :: 0 <= idx[j] < |names| && to[idx[j]].index == j && to[idx[j]].name == names[j]
  {
    hide Stage, Home, ChainsOk, Single;
    if |names| == 0 {
      to, idx := new Slot[0], new int[0];
      return;
    }
    ghost var holes, chain, slot, coll;
    var back, hole, first;
    to, back, idx, holes, chain, slot := Prepare(names, hash);
    hole, first, holes, chain, slot, coll := PlaceAll(names, hash, to, back, idx, holes, chain, slot);
    chain, slot := PlugAll(names, hash, to, back, idx, hole, first, holes, chain, slot, coll);
  }

  // ---- looking a name up --------------------------------------------------------------------

  /** The first function of that name, or -1. */
  function FirstIndex(names: seq<Addr>, a: Addr): (r: int)
    ensures -1 <= r < |names| && (r >= 0 ==> names[r] == a)
              && forall j | 0 <= j < (if r < 0 then |names| else r) :: names[j] != a
  {
    if names == [] then -1
    else
      var r := FirstIndex(names[..|names| - 1], a);
      if r >= 0 then r else if names[|names| - 1] == a then |names| - 1 else -1
  }

  /** Following the chain from where a name hashes to finds what a scan of all functions
      finds, although that slot may be in the middle of some other chain. */
  method Probe(names: seq<Addr>, hash: Hash, to: seq<Slot>, a: Addr) returns (r: int)
    requires TableOk(names, hash, to) && |names| > 0 && a != 0
    ensures r == FirstIndex(names, a)
  {
    hide Home, FirstIndex;
    ghost var chain, slot :| ChainsOk(names, hash, to, chain, slot) && Complete(names, hash, chain);
    var probe: int := Home(hash, a, |names|);
    ghost var home := probe;
    ghost var h, k := OnChain(names, hash, to, chain, slot, home);
    ghost var start := k;
    while probe >= 0 && to[probe].name != a
      invariant -1 <= probe < |to| && h < |chain| && k <= |chain[h]|
      invariant probe >= 0 ==>
                && k < |chain[h]| && EntryAt(names, hash, to, chain, slot, h, k)
                && probe == slot[chain[h][k]]
      invariant probe < 0 ==> k == |chain[h]|
      invariant forall m | start <= m < k && m < |chain[h]| :: chain[h][m] < |names| && names[chain[h][m]] != a
      decreases |chain[h]| - k
    {
      assert k + 1 < |chain[h]| ==> EntryAt(names, hash, to, chain, slot, h, k + 1);
      probe := to[probe].next;
      k := k + 1;
    }
    r := if probe < 0 then -1 else to[probe].index;
    NameFound(names, hash, to, chain, slot, home, h, k, a);
  }

  /** The slot a name hashes to is on some chain; at its head if that is the name's own. */
  lemma OnChain(names: seq<Addr>, hash: Hash, to: seq<Slot>, chain: Chains, slot: seq<int>, p: nat)
      returns (h: nat, k: nat)
    requires ChainsOk(names, hash, to, chain, slot) && Full(to) && p < |to|
    ensures h < |chain| && k < |chain[h]| && EntryAt(names, hash, to, chain, slot, h, k) && p == slot[chain[h][k]]
    ensures h == p ==> k == 0
    ensures h != p ==> chain[p] == []
  {
    hide Home;
    assert SlotAt(names, hash, to, chain, slot, p);
    h := Home(hash, names[to[p].index], |names|);
    k :| 0 <= k < |chain[h]| && chain[h][k] == to[p].index;
    assert EntryAt(names, hash, to, chain, slot, h, k);
    assert |chain[p]| > 0 ==> EntryAt(names, hash, to, chain, slot, p, 0);
    if h == p && k > 0 { Rising(names, hash, to, chain, slot, h, 0, k); }
  }

  /** Functions are in order on their chain. */
  lemma {:induction false} Rising(names: seq<Addr>, hash: Hash, to: seq<Slot>, chain: Chains, slot: seq<int>, h: nat,
                                  m: nat, k: nat)
    requires ChainsOk(names, hash, to, chain, slot) && h < |chain| && m < k < |chain[h]|
    ensures chain[h][m] < chain[h][k]
  {
    hide Home, SlotAt;
    assert EntryAt(names, hash, to, chain, slot, h, k);
    if m < k - 1 { Rising(names, hash, to, chain, slot, h, m, k - 1); }
  }

  lemma NameFound(names: seq<Addr>, hash: Hash, to: seq<Slot>, chain: Chains, slot: seq<int>, home: nat, h: nat, k: nat,
                  a: Addr)
    requires ChainsOk(names, hash, to, chain, slot) && Complete(names, hash, chain) && home == Home(hash, a, |names|)
    requires h < |chain| && k <= |chain[h]| && (h != home ==> chain[home] == [])
    requires k < |chain[h]| ==> EntryAt(names, hash, to, chain, slot, h, k) && names[chain[h][k]] == a
    requires h == home ==> forall m | 0 <= m < k :: chain[h][m] < |names| && names[chain[h][m]] != a
    ensures FirstIndex(names, a) == if k < |chain[h]| then chain[h][k] else -1
  {
    hide Home, FirstIndex;
    var f := FirstIndex(names, a);
    if f >= 0 {
      assert f in chain[home];
      var m :| 0 <= m < |chain[home]| && chain[home][m] == f;
      if k < |chain[h]| && m > k { Rising(names, hash, to, chain, slot, h, k, m); }
    }
  }
}
