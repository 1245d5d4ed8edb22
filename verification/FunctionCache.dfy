/** Looking up functions by name (src/interpret.c), with the global cache.

    A cache entry is keyed by the number of a program and the address of a shared string.
    Programs come and go, and so do strings, whose addresses may be used again; program
    numbers are never used again.
 */
module FunctionCache {
  import opened FunctionTable
  import SharedStrings

  type Heap = SharedStrings.Heap
  type Refs = SharedStrings.Refs

  const GLOBAL_CACHE: nat := 0x4000

  /** The names of a program's functions, their table, and the programs it inherits, the
      most derived last, which is the program itself. */
  datatype Program = Program(names: seq<Addr>, table: seq<Slot>, inherits: seq<nat>)

  type Programs = map<nat, Program>

  datatype Entry = Entry(tp: nat, fn: Addr, inh: int, ix: int)

  /** What a search finds: the inherited program and the function in it. */
  datatype Found = NotFound | Function(inh: nat, ix: nat)

  // ---- searching ----------------------------------------------------------------------

  ghost predicate ProgramsOk(progs: Programs, hash: Hash, nextId: nat) {
    forall id | id in progs :: ProgramOk(progs, hash, nextId, id)
  }

  ghost predicate ProgramOk(progs: Programs, hash: Hash, nextId: nat, id: nat)
    requires id in progs
  {
    var p := progs[id];
    && 0 < id < nextId && 0 !in p.names && TableOk(p.names, hash, p.table)
    && p.inherits != [] && p.inherits[|p.inherits| - 1] == id
    && forall i | 0 <= i < |p.inherits| :: p.inherits[i] in progs
  }

  /** The search by address, from the i-th inherited program down. */
  ghost function Search(progs: Programs, l: seq<nat>, a: Addr, i: int): Found
    requires -1 <= i < |l| && forall k | 0 <= k < |l| :: l[k] in progs
    decreases i + 1
  {
    if i < 0 then NotFound
    else
      var j := FirstIndex(progs[l[i]].names, a);
      if j >= 0 then Function(i, j) else Search(progs, l, a, i - 1)
  }

  ghost function SearchAll(progs: Programs, id: nat, a: Addr): Found
    requires id in progs && forall k | 0 <= k < |progs[id].inherits| :: progs[id].inherits[k] in progs
  {
    Search(progs, progs[id].inherits, a, |progs[id].inherits| - 1)
  }

  /** What the search promises: the most derived program that has a function whose name
      has the text s, and there the first such function. */
  ghost predicate Named(progs: Programs, heap: Heap, p: nat, j: nat, s: string)
    requires p in progs
  {
    j < |progs[p].names| && progs[p].names[j] in heap && heap[progs[p].names[j]].text == s
  }

  ghost predicate Finds(progs: Programs, heap: Heap, id: nat, s: string, r: Found)
    requires id in progs && forall k | 0 <= k < |progs[id].inherits| :: progs[id].inherits[k] in progs
  {
    var l := progs[id].inherits;
    match r
    case NotFound => forall k, j: nat | 0 <= k < |l| :: !Named(progs, heap, l[k], j, s)
    case Function(inh, ix) =>
      && inh < |l| && Named(progs, heap, l[inh], ix, s)
      && (forall j: nat | j < ix :: !Named(progs, heap, l[inh], j, s))
      && (forall k, j: nat | inh < k < |l| :: !Named(progs, heap, l[k], j, s))
  }

  /** The same of the programs l[0] .. l[i] only. */
  ghost predicate FindsUpTo(progs: Programs, heap: Heap, l: seq<nat>, i: int, s: string, r: Found)
    requires -1 <= i < |l| && forall k | 0 <= k < |l| :: l[k] in progs
  {
    match r
    case NotFound => forall k, j: nat | 0 <= k <= i :: !Named(progs, heap, l[k], j, s)
    case Function(inh, ix) =>
      && inh <= i && Named(progs, heap, l[inh], ix, s)
      && (forall j: nat | j < ix :: !Named(progs, heap, l[inh], j, s))
      && (forall k, j: nat | inh < k <= i :: !Named(progs, heap, l[k], j, s))
  }

  /** Names of live programs are in memory. */
  ghost predicate NamesLive(progs: Programs, heap: Heap) {
    forall id, j | id in progs && 0 <= j < |progs[id].names| :: progs[id].names[j] in heap
  }

  /** Equal text is equal address: the search by address finds the function of that name. */
  lemma {:induction false} SearchFinds(progs: Programs, heap: Heap, l: seq<nat>, a: Addr, i: int, hash: string -> nat)
    requires -1 <= i < |l| && (forall k | 0 <= k < |l| :: l[k] in progs) && NamesLive(progs, heap)
    requires SharedStrings.Interned(heap, hash) && a in heap
    ensures FindsUpTo(progs, heap, l, i, heap[a].text, Search(progs, l, a, i))
    decreases i + 1
  {
    hide FirstIndex;
    if i >= 0 {
      var names := progs[l[i]].names;
      forall j: nat | j < |names| ensures Named(progs, heap, l[i], j, heap[a].text) <==> names[j] == a { }
      SearchFinds(progs, heap, l, a, i - 1, hash);
    }
  }

  /** Without a string of that text no program has a function of that name. */
  lemma NoString(progs: Programs, heap: Heap, id: nat, s: string)
    requires id in progs && forall k | 0 <= k < |progs[id].inherits| :: progs[id].inherits[k] in progs
    requires forall a | a in heap :: heap[a].text != s
    ensures Finds(progs, heap, id, s, NotFound)
  {
  }

  /** Moving strings about in their chains changes nothing for the search. */
  lemma FindsSame(progs: Programs, heap: Heap, heap': Heap, id: nat, s: string, r: Found)
    requires id in progs && forall k | 0 <= k < |progs[id].inherits| :: progs[id].inherits[k] in progs
    requires SharedStrings.SameStrings(heap, heap') && Finds(progs, heap', id, s, r)
    ensures Finds(progs, heap, id, s, r)
  {
    forall p, j: nat | p in progs ensures Named(progs, heap, p, j, s) <==> Named(progs, heap', p, j, s) { }
  }

  // ---- the cache --------------------------------------------------------------------------

  ghost predicate EntryOk(e: Entry, progs: Programs, hash: Hash, nextId: nat)
    requires ProgramsOk(progs, hash, nextId)
  {
    && e.tp < nextId
    && (e.tp in progs ==>
          assert ProgramOk(progs, hash, nextId, e.tp);
          var r := SearchAll(progs, e.tp, e.fn);
          if e.inh == -1 then r == NotFound else e.inh >= 0 && e.ix >= 0 && r == Function(e.inh, e.ix))
  }

  ghost predicate CacheOk(cache: seq<Entry>, progs: Programs, hash: Hash, nextId: nat)
    requires ProgramsOk(progs, hash, nextId)
  {
    |cache| == GLOBAL_CACHE && forall s | 0 <= s < |cache| :: EntryOk(cache[s], progs, hash, nextId)
  }

  /** A search depends on nothing but the programs it visits. */
  lemma {:induction false} SearchFrame(progs: Programs, progs': Programs, l: seq<nat>, a: Addr, i: int)
    requires -1 <= i < |l| && forall k | 0 <= k < |l| :: l[k] in progs && l[k] in progs' && progs[l[k]] == progs'[l[k]]
    ensures Search(progs, l, a, i) == Search(progs', l, a, i)
    decreases i + 1
  {
    hide FirstIndex;
    if i >= 0 { SearchFrame(progs, progs', l, a, i - 1); }
  }

  // ---- who holds which name -----------------------------------------------------------------

  ghost predicate Held(progs: Programs, refs: Refs) {
    forall id, j | id in progs && 0 <= j < |progs[id].names| :: NameHeld(progs, refs, id, j)
  }

  ghost predicate NameHeld(progs: Programs, refs: Refs, id: nat, j: nat)
    requires id in progs && j < |progs[id].names|
  {
    var a := progs[id].names[j];
    a in refs && SharedStrings.Prog(id, j) in refs[a]
  }

  /** Only live programs hold references as programs, and only to their function names. */
  ghost predicate OnlyLive(progs: Programs, refs: Refs) {
    forall a, id: nat, j: nat | a in refs && SharedStrings.Prog(id, j) in refs[a] :: HolderIn(progs, a, id, j)
  }

  ghost predicate HolderIn(progs: Programs, a: Addr, id: nat, j: nat) {
    id in progs && j < |progs[id].names| && progs[id].names[j] == a
  }

  lemma LiveNames(progs: Programs, heap: Heap, refs: Refs)
    requires Held(progs, refs) && refs.Keys == heap.Keys
    ensures NamesLive(progs, heap)
  {
    forall id, j | id in progs && 0 <= j < |progs[id].names|
      ensures progs[id].names[j] in heap
    {
      assert NameHeld(progs, refs, id, j);
    }
  }

  class Driver {
    const strings: SharedStrings.StringTable
    const hash: Hash
    /** The slot of the cache for a program and a name. */
    const spread: (nat, Addr) -> nat
    var progs: Programs
    var nextId: nat
    var cache: seq<Entry>

    ghost predicate Valid()
      reads this, strings
    {
      && strings.Valid()
      && 0 < nextId && ProgramsOk(progs, hash, nextId) && CacheOk(cache, progs, hash, nextId)
      && Held(progs, strings.refs) && OnlyLive(progs, strings.refs)
    }

    constructor (textHash: string -> nat, hash: Hash, spread: (nat, Addr) -> nat)
      ensures Valid() && fresh(strings)
    {
      strings := new SharedStrings.StringTable(textHash);
      this.hash := hash;
      this.spread := spread;
      progs := map[];
      nextId := 1;
      cache := seq(GLOBAL_CACHE, _ => Entry(0, 0, 0, 0));
    }

    /** One program of the search. */
    method FindIn(p: nat, name: Addr) returns (j: int)
      requires ProgramsOk(progs, hash, nextId) && p in progs && name != 0
      ensures j == FirstIndex(progs[p].names, name)
    {
      hide FirstIndex, TableOk;
      assert ProgramOk(progs, hash, nextId, p);
      j := -1;
      if |progs[p].names| != 0 {
        j := Probe(progs[p].names, hash, progs[p].table, name);
      }
    }

    /** The search of s_f_f without the cache. */
    method Uncached(name: Addr, id: nat) returns (r: Found)
      requires ProgramsOk(progs, hash, nextId) && id in progs && name != 0
      ensures ProgramOk(progs, hash, nextId, id) && r == SearchAll(progs, id, name)
    {
      hide FirstIndex, TableOk;
      assert ProgramOk(progs, hash, nextId, id);
      var l := progs[id].inherits;
      var i := |l| - 1;
      while i >= 0
        invariant -1 <= i < |l| && SearchAll(progs, id, name) == Search(progs, l, name, i)
      {
        var j := FindIn(l[i], name);
        if j >= 0 { return Function(i, j); }
        i := i - 1;
      }
      r := NotFound;
    }

    /** s_f_f: what the cache says is what a search would find. */
    method SFF(name: Addr, id: nat) returns (r: Found)
      requires Valid() && id in progs
      modifies this`cache
      ensures Valid() && ProgramOk(progs, hash, nextId, id)
      ensures r == if name == 0 then NotFound else SearchAll(progs, id, name)
    {
      hide FirstIndex, TableOk, SearchAll, Held, OnlyLive, ProgramsOk;
      assert ProgramOk(progs, hash, nextId, id) by { ProgramAt(progs, hash, nextId, id); }
      if name == 0 { return NotFound; }
      var g := spread(id, name) % GLOBAL_CACHE;
      assert EntryOk(cache[g], progs, hash, nextId);
      if cache[g].tp == id && cache[g].fn == name {
        return if cache[g].inh == -1 then NotFound else Function(cache[g].inh, cache[g].ix);
      }
      r := Uncached(name, id);
      var e := match r
        case NotFound => Entry(id, name, -1, cache[g].ix)
        case Function(inh, ix) => Entry(id, name, inh, ix);
      assert EntryOk(e, progs, hash, nextId);
      cache := cache[g := e];
    }

    /** search_for_function: the function of that name, wherever its name's string has been. */
    method SearchForFunction(s: string, id: nat) returns (r: Found)
      requires Valid() && id in progs
      modifies this`cache, strings
      ensures Valid() && ProgramOk(progs, hash, nextId, id) && Finds(progs, old(strings.heap), id, s, r)
      ensures SharedStrings.SameStrings(old(strings.heap), strings.heap)
    {
      hide FirstIndex, TableOk, Search, CacheOk, Held, OnlyLive, ProgramsOk, Finds;
      assert ProgramOk(progs, hash, nextId, id) by { ProgramAt(progs, hash, nextId, id); }
      var xp := strings.Find(s);
      r := SFF(xp, id);
      var l := progs[id].inherits;
      if xp == 0 {
        NoString(progs, strings.heap, id, s);
      } else {
        LiveNames(progs, strings.heap, strings.refs);
        SearchFinds(progs, strings.heap, l, xp, |l| - 1, strings.hash);
        FindsAll(progs, strings.heap, id, s, r);
      }
      FindsSame(progs, old(strings.heap), strings.heap, id, s, r);
    }

    /** Anybody makes or finds a shared string. */
    method MakeString(text: string, ghost n: nat) returns (a: Addr)
      requires Valid() && strings.Unheld(SharedStrings.Other(n))
      modifies strings
      ensures Valid() && a in strings.heap && strings.heap[a].text == text
      ensures OneMore(old(strings.refs), strings.refs, a, SharedStrings.Other(n))
      ensures forall b | b in old(strings.heap) ::
                b in strings.heap && strings.heap[b].text == old(strings.heap)[b].text
    {
      hide ProgramsOk, CacheOk;
      var at := NewAddress(strings.heap);
      a := strings.Make(text, at, SharedStrings.Other(n));
      HeldMore(progs, old(strings.refs), strings.refs, a, SharedStrings.Other(n));
    }

    /** Anybody releases a shared string, and may free it. */
    method FreeString(a: Addr, ghost n: nat)
      requires Valid() && a in strings.heap && SharedStrings.Other(n) in strings.refs[a]
      modifies strings
      ensures Valid()
      ensures if old(strings.refs)[a] == {SharedStrings.Other(n)} && a !in strings.stuck
              then a !in strings.heap && strings.refs == old(strings.refs) - {a}
              else strings.refs == old(strings.refs)[a := old(strings.refs)[a] - {SharedStrings.Other(n)}]
      ensures forall b | b in strings.heap ::
                b in old(strings.heap) && strings.heap[b].text == old(strings.heap)[b].text
    {
      hide ProgramsOk, CacheOk;
      strings.Free(a, SharedStrings.Other(n));
      HeldLess(progs, old(strings.refs), strings.refs, a, SharedStrings.Other(n));
    }

    /** A program is loaded: its function names become shared strings it holds, its table
        is built, and it gets a number that was never used. */
    method LoadProgram(names: seq<string>, inherits: seq<nat>) returns (id: nat)
      requires Valid() && forall i | 0 <= i < |inherits| :: inherits[i] in progs
      modifies this, strings
      ensures Valid() && id == old(nextId) && id !in old(progs) && progs.Keys == old(progs).Keys + {id}
      ensures forall q | q in old(progs) :: progs[q] == old(progs)[q]
      ensures progs[id].inherits == inherits + [id] && |progs[id].names| == |names|
      ensures forall j | 0 <= j < |names| :: Named(progs, strings.heap, id, j, names[j])
    {
      hide FirstIndex, TableOk, CacheOk, Held, OnlyLive, ProgramsOk, SharedStrings.StringTable.Valid;
      id := nextId;
      var addrs := LoadNames(names, id);
      var to, _ := HashFunc(addrs, hash);
      ghost var was := progs;
      progs := progs[id := Program(addrs, to[..], inherits + [id])];
      nextId := nextId + 1;
      Loaded(was, progs, hash, id, cache, strings.refs);
    }

    method LoadNames(names: seq<string>, id: nat) returns (addrs: seq<Addr>)
      requires Valid() && id == nextId
      modifies strings
      ensures strings.Valid() && |addrs| == |names| && 0 !in addrs
      ensures Held(progs, strings.refs) && Loading(progs, strings.refs, id, addrs)
      ensures forall j | 0 <= j < |names| :: addrs[j] in strings.heap && strings.heap[addrs[j]].text == names[j]
    {
      hide FirstIndex, TableOk, CacheOk, Held, ProgramsOk, Loading, SharedStrings.ChainsOk, SharedStrings.Interned,
          SharedStrings.Counted;
      addrs := [];
      NothingLoaded(progs, strings.refs, hash, id);
      while |addrs| < |names|
        invariant |addrs| <= |names| && strings.Valid() && 0 !in addrs
        invariant Held(progs, strings.refs) && Loading(progs, strings.refs, id, addrs)
        invariant forall j | 0 <= j < |addrs| :: addrs[j] in strings.heap && strings.heap[addrs[j]].text == names[j]
      {
        var a := LoadName(names[|addrs|], id, addrs);
        addrs := addrs + [a];
      }
    }

    method LoadName(name: string, id: nat, ghost addrs: seq<Addr>) returns (a: Addr)
      requires strings.Valid() && ProgramsOk(progs, hash, id) && Held(progs, strings.refs)
                 && Loading(progs, strings.refs, id, addrs)
      modifies strings
      ensures strings.Valid() && Held(progs, strings.refs) && Loading(progs, strings.refs, id, addrs + [a])
      ensures a != 0 && a in strings.heap && strings.heap[a].text == name
      ensures forall b | b in old(strings.heap) ::
                b in strings.heap && strings.heap[b].text == old(strings.heap)[b].text
    {
      hide Held, ProgramsOk, Loading, SharedStrings.ChainsOk, SharedStrings.Interned;
      ghost var who, refs := SharedStrings.Prog(id, |addrs|), strings.refs;
      NotYetHeld(progs, refs, hash, id, addrs);
      var at := NewAddress(strings.heap);
      a := strings.Make(name, at, who);
      HeldKept(progs, refs, strings.refs, a, who);
      LoadedOne(progs, refs, strings.refs, id, addrs, a);
      NotNull(strings.heap, strings.table, strings.lists, a);
    }

    /** A program that no other inherits is freed, and releases its names. */
    method FreeProgram(id: nat)
      requires Valid() && id in progs && forall q | q in progs && q != id :: id !in progs[q].inherits
      modifies this, strings
      ensures Valid() && progs == old(progs) - {id} && nextId == old(nextId)
    {
      hide FirstIndex, TableOk, CacheOk, Held, OnlyLive, ProgramsOk, SharedStrings.ChainsOk, SharedStrings.Interned,
          SharedStrings.Counted;
      StartFreeing(progs, strings.refs, id);
      FreeNames(id);
      Unloaded(progs, hash, nextId, id, cache);
      progs := progs - {id};
    }

    method FreeNames(id: nat)
      requires strings.Valid() && id in progs && Freeing(progs, strings.refs, id, 0)
      modifies strings
      ensures strings.Valid() && Held(progs - {id}, strings.refs) && OnlyLive(progs - {id}, strings.refs)
    {
      hide Freeing, SharedStrings.ChainsOk, SharedStrings.Interned;
      var names := progs[id].names;
      var j := 0;
      while j < |names|
        invariant j <= |names| && strings.Valid() && Freeing(progs, strings.refs, id, j)
      {
        ghost var refs := strings.refs;
        NextToFree(progs, refs, id, j);
        strings.Free(names[j], SharedStrings.Prog(id, j));
        FreedOne(progs, refs, strings.refs, id, j);
        j := j + 1;
      }
      AllFreed(progs, strings.refs, id);
    }
  }

  /** Program id has released its first n names. */
  ghost predicate Freeing(progs: Programs, refs: Refs, id: nat, n: nat) {
    && id in progs && n <= |progs[id].names|
    && (forall q, j | q in progs && 0 <= j < |progs[q].names| && (q == id ==> n <= j) :: NameHeld(progs, refs, q, j))
    && (forall a, q: nat, j: nat | a in refs && SharedStrings.Prog(q, j) in refs[a] :: HolderOk(progs, a, q, j, id, n))
  }

  ghost predicate HolderOk(progs: Programs, a: Addr, q: nat, j: nat, id: nat, n: nat) {
    q in progs && j < |progs[q].names| && progs[q].names[j] == a && (q == id ==> n <= j)
  }

  lemma NextToFree(progs: Programs, refs: Refs, id: nat, j: nat)
    requires Freeing(progs, refs, id, j) && j < |progs[id].names|
    ensures NameHeld(progs, refs, id, j)
  {
  }

  lemma FreedOne(progs: Programs, refs: Refs, refs': Refs, id: nat, j: nat)
    requires Freeing(progs, refs, id, j) && j < |progs[id].names|
    requires var a, who := progs[id].names[j], SharedStrings.Prog(id, j);
             a in refs && (refs' == refs[a := refs[a] - {who}] || (refs' == refs - {a} && refs[a] == {who}))
    ensures Freeing(progs, refs', id, j + 1)
  {
    forall q, k | q in progs && 0 <= k < |progs[q].names| && (q == id ==> j + 1 <= k)
      ensures NameHeld(progs, refs', q, k)
    {
      assert NameHeld(progs, refs, q, k);
    }
    forall a, q: nat, k: nat | a in refs' && SharedStrings.Prog(q, k) in refs'[a]
      ensures HolderOk(progs, a, q, k, id, j + 1)
    {
      assert HolderOk(progs, a, q, k, id, j);
    }
  }

  lemma AllFreed(progs: Programs, refs: Refs, id: nat)
    requires id in progs && Freeing(progs, refs, id, |progs[id].names|)
    ensures Held(progs - {id}, refs) && OnlyLive(progs - {id}, refs)
  {
    forall q, j | q in progs - {id} && 0 <= j < |progs[q].names|
      ensures NameHeld(progs - {id}, refs, q, j)
    {
      assert NameHeld(progs, refs, q, j);
    }
    forall a, q: nat, j: nat | a in refs && SharedStrings.Prog(q, j) in refs[a]
      ensures HolderIn(progs - {id}, a, q, j)
    {
      assert HolderOk(progs, a, q, j, id, |progs[id].names|);
    }
  }

  lemma StartFreeing(progs: Programs, refs: Refs, id: nat)
    requires Held(progs, refs) && OnlyLive(progs, refs) && id in progs
    ensures Freeing(progs, refs, id, 0)
  {
    forall a, q: nat, j: nat | a in refs && SharedStrings.Prog(q, j) in refs[a]
      ensures HolderOk(progs, a, q, j, id, 0)
    {
      assert HolderIn(progs, a, q, j);
    }
  }

  lemma Unloaded(progs: Programs, hash: Hash, nextId: nat, id: nat, cache: seq<Entry>)
    requires ProgramsOk(progs, hash, nextId) && CacheOk(cache, progs, hash, nextId) && id in progs
    requires forall q | q in progs && q != id :: id !in progs[q].inherits
    ensures ProgramsOk(progs - {id}, hash, nextId) && CacheOk(cache, progs - {id}, hash, nextId)
  {
    hide TableOk;
    var progs' := progs - {id};
    forall q | q in progs' ensures ProgramOk(progs', hash, nextId, q) {
      assert ProgramOk(progs, hash, nextId, q);
      forall i | 0 <= i < |progs[q].inherits|
        ensures progs[q].inherits[i] in progs'
      {
        assert progs[q].inherits[i] in progs[q].inherits;
      }
    }
    forall s | 0 <= s < |cache| ensures EntryOk(cache[s], progs', hash, nextId) {
      assert EntryOk(cache[s], progs, hash, nextId);
      if cache[s].tp in progs' {
        assert ProgramOk(progs', hash, nextId, cache[s].tp);
        var l := progs[cache[s].tp].inherits;
        SearchFrame(progs, progs', l, cache[s].fn, |l| - 1);
      }
    }
  }

  /** Memory has room: the allocator may hand out any address that is not in use. */
  method NewAddress(heap: Heap) returns (a: Addr)
    ensures a != 0 && a !in heap
  {
    ghost var n := Unused(heap.Keys);
    assert n != 0 && n !in heap;
    a :| a != 0 && a !in heap;
  }

  lemma {:induction false} Unused(s: set<Addr>) returns (n: Addr)
    ensures n != 0 && forall a | a in s :: a < n
  {
    n := 1;
    if s != {} {
      var x :| x in s;
      n := Unused(s - {x});
      assert forall a | a in s && a != x :: a in s - {x};
      if n <= x { n := x + 1; }
    }
  }

  lemma NotNull(heap: Heap, table: seq<Addr>, lists: seq<seq<Addr>>, a: Addr)
    requires SharedStrings.ChainsOk(heap, table, lists) && a in heap
    ensures a != 0
  {
    var i := SharedStrings.PlaceOf(heap, table, lists, a);
    SharedStrings.ChainsNull(heap, table, lists, heap[a].hash, i);
  }

  ghost predicate OneMore(refs: Refs, refs': Refs, a: Addr, who: SharedStrings.Holder) {
    refs' == refs[a := (if a in refs then refs[a] else {}) + {who}]
  }

  lemma HeldKept(progs: Programs, refs: Refs, refs': Refs, a: Addr, who: SharedStrings.Holder)
    requires Held(progs, refs) && OneMore(refs, refs', a, who)
    ensures Held(progs, refs')
  {
    forall id, j | id in progs && 0 <= j < |progs[id].names|
      ensures NameHeld(progs, refs', id, j)
    {
      assert NameHeld(progs, refs, id, j);
    }
  }

  lemma HeldMore(progs: Programs, refs: Refs, refs': Refs, a: Addr, who: SharedStrings.Holder)
    requires Held(progs, refs) && OnlyLive(progs, refs) && OneMore(refs, refs', a, who) && who.Other?
    ensures Held(progs, refs') && OnlyLive(progs, refs')
  {
    HeldKept(progs, refs, refs', a, who);
  }

  lemma HeldLess(progs: Programs, refs: Refs, refs': Refs, a: Addr, who: SharedStrings.Holder)
    requires Held(progs, refs) && OnlyLive(progs, refs) && a in refs && who.Other?
    requires refs' == refs[a := refs[a] - {who}] || (refs' == refs - {a} && refs[a] == {who})
    ensures Held(progs, refs') && OnlyLive(progs, refs')
  {
    forall id, j | id in progs && 0 <= j < |progs[id].names|
      ensures NameHeld(progs, refs', id, j)
    {
      assert NameHeld(progs, refs, id, j);
    }
  }

  /** While program id is being loaded it holds the names read so far. */
  ghost predicate Loading(progs: Programs, refs: Refs, id: nat, addrs: seq<Addr>) {
    && (forall a, q: nat, j: nat | a in refs && SharedStrings.Prog(q, j) in refs[a] ::
        HolderIn(progs, a, q, j) || (q == id && j < |addrs| && addrs[j] == a))
    && (forall j | 0 <= j < |addrs| :: addrs[j] in refs && SharedStrings.Prog(id, j) in refs[addrs[j]])
  }

  lemma NothingLoaded(progs: Programs, refs: Refs, hash: Hash, id: nat)
    requires OnlyLive(progs, refs)
    ensures Loading(progs, refs, id, [])
  {
  }

  lemma NotYetHeld(progs: Programs, refs: Refs, hash: Hash, id: nat, addrs: seq<Addr>)
    requires Loading(progs, refs, id, addrs) && ProgramsOk(progs, hash, id)
    ensures forall a | a in refs :: SharedStrings.Prog(id, |addrs|) !in refs[a]
  {
    assert id in progs ==> ProgramOk(progs, hash, id, id);
  }

  lemma LoadedOne(progs: Programs, refs: Refs, refs': Refs, id: nat, addrs: seq<Addr>, a: Addr)
    requires Loading(progs, refs, id, addrs) && OneMore(refs, refs', a, SharedStrings.Prog(id, |addrs|))
    ensures Loading(progs, refs', id, addrs + [a])
  {
  }

  lemma Loaded(progs: Programs, progs': Programs, hash: Hash, id: nat, cache: seq<Entry>, refs: Refs)
    requires ProgramsOk(progs, hash, id) && CacheOk(cache, progs, hash, id) && id > 0
    requires id in progs' && progs' == progs[id := progs'[id]] && 0 !in progs'[id].names
               && TableOk(progs'[id].names, hash, progs'[id].table)
    requires var l := progs'[id].inherits; l != [] && l[|l| - 1] == id && forall i | 0 <= i < |l| - 1 :: l[i] in progs
    requires Held(progs, refs) && Loading(progs, refs, id, progs'[id].names)
    ensures id !in progs && ProgramsOk(progs', hash, id + 1) && CacheOk(cache, progs', hash, id + 1)
    ensures Held(progs', refs) && OnlyLive(progs', refs)
  {
    hide TableOk;
    assert id in progs ==> ProgramOk(progs, hash, id, id);
    forall q | q in progs' ensures ProgramOk(progs', hash, id + 1, q) {
      if q != id { assert ProgramOk(progs, hash, id, q); }
    }
    forall s | 0 <= s < |cache| ensures EntryOk(cache[s], progs', hash, id + 1) {
      assert EntryOk(cache[s], progs, hash, id);
      if cache[s].tp in progs {
        assert ProgramOk(progs, hash, id, cache[s].tp);
        var l := progs[cache[s].tp].inherits;
        SearchFrame(progs, progs', l, cache[s].fn, |l| - 1);
      }
    }
    forall q, j | q in progs' && 0 <= j < |progs'[q].names| ensures NameHeld(progs', refs, q, j) {
      if q != id { assert NameHeld(progs, refs, q, j); }
    }
  }

  lemma FindsAll(progs: Programs, heap: Heap, id: nat, s: string, r: Found)
    requires id in progs && forall k | 0 <= k < |progs[id].inherits| :: progs[id].inherits[k] in progs
    requires FindsUpTo(progs, heap, progs[id].inherits, |progs[id].inherits| - 1, s, r)
    ensures Finds(progs, heap, id, s, r)
  {
    hide Named;
  }

  lemma ProgramAt(progs: Programs, hash: Hash, nextId: nat, id: nat)
    requires ProgramsOk(progs, hash, nextId) && id in progs
    ensures ProgramOk(progs, hash, nextId, id)
  {
  }
}
