/** Mappings (src/mapping.c): a hash table that doubles as it fills refines a finite map.

    `hash` is any function of the value, so that equal keys have equal hashes.
    A mapping that cannot grow any more raises an error when a key is added to it.
 */
module Mapping {
  import opened MappingTable

  const MAX_MAPPING_SIZE: nat := 5000
  const FILL_FACTOR: nat := 250

  /** The number of pairs at which a table of s chains is doubled. */
  function FSize(s: nat): nat { s * FILL_FACTOR / 100 }

  predicate PowerOfTwo(s: nat) {
    s in {1, 2, 4, 8, 16, 32, 64, 128, 256, 512, 1024, 2048, 4096, 8192}
  }

  /** How many keys a table of s chains can take in all, growing as it may. */
  function Capacity(s: nat): nat { if 2 * s <= MAX_MAPPING_SIZE then FSize(4096) else FSize(s) }

  lemma Doubled(s: nat)
    requires PowerOfTwo(s) && 2 * s <= MAX_MAPPING_SIZE
    ensures PowerOfTwo(2 * s) && Capacity(2 * s) == Capacity(s) && FSize(s) < FSize(2 * s) && FSize(s) < Capacity(s)
  {
  }

  lemma Halved(s: nat, u: nat)
    ensures s * (u + 1) <= 2 * s * (u / 2 + 1) && 2 * s * (u / 2) <= s * u && (u > 0 ==> s <= s * u)
  {
    assert 2 * s * (u / 2) == s * (2 * (u / 2));
    MulMono(s, 2 * (u / 2), u);
    if u > 0 { MulMono(s, 1, u); }
    assert u + 1 <= 2 * (u / 2 + 1);
    assert 2 * s * (u / 2 + 1) == s * (2 * (u / 2 + 1));
    MulMono(s, u + 1, 2 * (u / 2 + 1));
  }

  lemma MulMono(s: nat, a: nat, b: nat)
    requires a <= b
    ensures s * a <= s * b
  {
  }

  ghost predicate CardOk(card: nat, c: Contents) { card == |c| }

  lemma CardIs(card: nat, c: Contents)
    requires CardOk(card, c)
    ensures card == |c|
  {
  }

  class Mapping {
    const hash: Value -> int
    var pairs: seq<Chain>
    var card: nat
    var mcard: nat
    ghost var contents: Contents

    ghost predicate Valid()
      reads this
    {
      && Table(pairs, hash, contents)
      && CardOk(card, contents)
      && PowerOfTwo(|pairs|) && mcard == FSize(|pairs|)
      && (2 * |pairs| <= MAX_MAPPING_SIZE ==> card <= mcard)
    }

    /** allocate_map: room for msize pairs before the first doubling, if there can be. */
    constructor (msize: nat, hash: Value -> int)
      ensures Valid() && contents == map[] && this.hash == hash
      ensures msize <= FSize(|pairs|) || |pairs| == 8192
      ensures |pairs| == 1 || |pairs| <= 2 * (msize * 100 / FILL_FACTOR)
    {
      var size: nat, u: nat := 1, msize * 100 / FILL_FACTOR;
      ghost var u0 := u;
      while u > 0 && size < MAX_MAPPING_SIZE
        invariant PowerOfTwo(size) && u0 < size * (u + 1) && size * u <= u0 && (size == 1 || size <= 2 * u0)
        decreases u
      {
        Halved(size, u);
        size, u := size * 2, u / 2;
      }
      TableEmpty(size, hash);
      this.hash := hash;
      pairs := seq(size, _ => []);
      card, mcard := 0, FSize(size);
      contents := map[];
    }

    /** The walk along one chain. */
    method FindPair(k: Value) returns (b: nat, i: nat)
      requires Valid()
      ensures b == Slot(hash(k), |pairs|) && i <= |pairs[b]|
      ensures i == |pairs[b]| <==> k !in contents
      ensures i < |pairs[b]| ==> pairs[b][i].key == k && k in contents && contents[k] == pairs[b][i].val
    {
      hide Slot, PowerOfTwo, FSize;
      var h16 := hash(k);
      b, i := Slot(h16, |pairs|), 0;
      assert ChainOk(pairs[b], hash, |pairs|, b);
      while i < |pairs[b]| && !(pairs[b][i].hashval == h16 && pairs[b][i].key == k)
        invariant i <= |pairs[b]| && forall j | 0 <= j < i :: pairs[b][j].key != k
      {
        i := i + 1;
      }
      assert Get(contents, k) == Look(pairs[b], k);
      if i < |pairs[b]| { LookAt(pairs[b], i); } else { LookNone(pairs[b], k); }
    }

    /** get_map_lvalue without creation. */
    method Lookup(k: Value) returns (r: Maybe<Value>)
      requires Valid()
      ensures r == Get(contents, k)
    {
      hide Slot, PowerOfTwo, FSize, Table;
      var b, i := FindPair(k);
      r := if i == |pairs[b]| then None else Some(pairs[b][i].val);
    }

    /** rehash_map: every pair moves to its chain in a table twice as large. */
    method Rehash() returns (ok: bool)
      requires Table(pairs, hash, contents) && PowerOfTwo(|pairs|)
      modifies this`pairs, this`mcard
      ensures Table(pairs, hash, contents) && PowerOfTwo(|pairs|)
      ensures ok <==> 2 * old(|pairs|) <= MAX_MAPPING_SIZE
      ensures ok ==> |pairs| == 2 * old(|pairs|) && mcard == FSize(|pairs|)
      ensures !ok ==> pairs == old(pairs) && mcard == old(mcard)
    {
      hide Slot, FSize, Table;
      var nsize := |pairs| * 2;
      if nsize > MAX_MAPPING_SIZE { return false; }
      assert PowerOfTwo(nsize);
      hide PowerOfTwo;
      var newPairs: seq<Chain> := seq(nsize, _ => []);
      TableEmpty(nsize, hash);
      var i := 0;
      while i < |pairs|
        modifies {}
        invariant i <= |pairs| && |newPairs| == nsize && Table(newPairs, hash, Before(pairs, i, 0))
      {
        newPairs := MoveChain(i, newPairs);
        i := i + 1;
      }
      MetAll(pairs, hash, contents);
      pairs := newPairs;
      mcard := FSize(nsize);
      ok := true;
    }

    method MoveChain(i: nat, t: seq<Chain>) returns (r: seq<Chain>)
      requires Table(pairs, hash, contents) && i < |pairs| && Table(t, hash, Before(pairs, i, 0))
      ensures |r| == |t| && Table(r, hash, Before(pairs, i + 1, 0))
    {
      hide Slot, Table;
      r := t;
      var j := 0;
      while j < |pairs[i]|
        invariant j <= |pairs[i]| && |r| == |t| && Table(r, hash, Before(pairs, i, j))
      {
        var p := pairs[i][j];
        PairIn(pairs, hash, contents, i, j);
        NotMet(pairs, hash, contents, i, j);
        TableInsert(r, hash, Before(pairs, i, j), p.key, p.val);
        NonEmpty(r, hash, Before(pairs, i, j));
        var hval := Slot(p.hashval, |r|);
        r := r[hval := [p] + r[hval]];
        j := j + 1;
      }
    }

    /** Assigning through get_map_lvalue with creation.  A key that cannot be added is an
        error, and stays behind with the value 0. */
    method Put(k: Value, v: Value) returns (ok: bool)
      requires Valid()
      modifies this
      ensures Valid() && Capacity(|pairs|) == old(Capacity(|pairs|))
      ensures ok <==> k in old(contents) || old(card) < old(Capacity(|pairs|))
      ensures contents == old(contents)[k := if ok then v else Number(0)]
      ensures old(Get(contents, k)) == Some(v) ==> pairs == old(pairs)
    {
      hide Slot, Table, PowerOfTwo, FSize;
      var b, i := FindPair(k);
      ok := true;
      if i == |pairs[b]| { ok := NewPair(k); }
      if ok { Assign(k, v); }
    }

    method NewPair(k: Value) returns (ok: bool)
      requires Valid() && k !in contents
      modifies this
      ensures Valid() && Capacity(|pairs|) == old(Capacity(|pairs|))
      ensures ok <==> old(card) < old(Capacity(|pairs|))
      ensures contents == old(contents)[k := Number(0)]
    {
      hide Slot, Table;
      var b := Slot(hash(k), |pairs|);
      TableInsert(pairs, hash, contents, k, Number(0));
      pairs := pairs[b := [Pair(k, Number(0), hash(k))] + pairs[b]];
      contents := contents[k := Number(0)];
      card := card + 1;
      ok := true;
      if 2 * |pairs| <= MAX_MAPPING_SIZE { Doubled(|pairs|); }
      hide PowerOfTwo, FSize;
      if card > mcard { ok := Rehash(); }
    }

    method Assign(k: Value, v: Value)
      requires Valid() && k in contents
      modifies this`pairs, this`contents
      ensures Valid() && |pairs| == old(|pairs|) && contents == old(contents)[k := v]
      ensures old(contents)[k] == v ==> pairs == old(pairs)
    {
      hide Slot, Table, PowerOfTwo, FSize;
      var b, i := FindPair(k);
      TableAssign(pairs, hash, contents, b, i, v);
      assert contents[k] == v ==> pairs[b][i].(val := v) == pairs[b][i] && pairs[b][i := pairs[b][i]] == pairs[b];
      pairs := pairs[b := pairs[b][i := pairs[b][i].(val := v)]];
      contents := contents[k := v];
    }

    /** addto_mapping: every pair of m is put into this mapping, its values prevailing.
        After a failure some of the pairs are there, and one key that was not to be added,
        with the value 0. */
    method AddTo(m: Mapping) returns (ok: bool)
      requires Valid() && m.Valid()
      modifies this
      ensures Valid() && Capacity(|pairs|) == old(Capacity(|pairs|))
      ensures ok <==> Fits(old(contents), old(m.contents), old(Capacity(|pairs|)))
      ensures if ok then contents == Sum(old(contents), old(m.contents))
              else Stuck(old(contents), old(m.contents), contents, old(Capacity(|pairs|)))
    {
      ghost var c, d, cap := contents, m.contents, Capacity(|pairs|);
      hide Fits, Slot, Table, PowerOfTwo, FSize, Capacity, Adding, Before, CardOk, Midway, Stuck, Sum;
      MidwayStart(m);
      var i := 0;
      while i < |m.pairs|
        invariant i <= |m.pairs| && Midway(m, i, 0, c, d, cap)
        invariant m.pairs == old(m.pairs)
      {
        ok := AddChain(m, i, c, d, cap);
        if !ok { return; }
        i := i + 1;
      }
      MidwayEnd(m, c, d, cap);
      ok := true;
    }

    lemma MidwayStart(m: Mapping)
      requires Valid() && m.Valid()
      ensures Midway(m, 0, 0, contents, m.contents, Capacity(|pairs|))
    {
      hide Slot, Table, PowerOfTwo, FSize, Capacity, Adding, Before, CardOk;
      NonEmpty(m.pairs, m.hash, m.contents);
      BeforeStep(m.pairs, 0, 0);
      AddNone(contents, m.contents, Capacity(|pairs|));
    }

    lemma MidwayEnd(m: Mapping, c: Contents, d: Contents, cap: nat)
      requires Midway(m, |m.pairs|, 0, c, d, cap)
      ensures Valid() && contents == Sum(c, d) && Fits(c, d, cap) && Capacity(|pairs|) == cap
    {
      hide Slot, Table, PowerOfTwo, FSize, Capacity, Adding, Before, CardOk, Fits;
      MetAll(m.pairs, m.hash, d);
      AllAdded(c, d, contents, cap);
    }

    /** The pairs of m before pair j of chain i have been added. */
    ghost predicate Midway(m: Mapping, i: nat, j: nat, c: Contents, d: Contents, cap: nat)
      requires i <= |m.pairs| && (i < |m.pairs| ==> j <= |m.pairs[i]|) && (i == |m.pairs| ==> j == 0)
      reads this, m
    {
      && Valid() && m.Valid() && m.contents == d && (m == this ==> c == d) && Capacity(|pairs|) == cap
      && Adding(c, d, contents, Before(m.pairs, i, j), cap)
    }

    method AddChain(m: Mapping, i: nat, ghost c: Contents, ghost d: Contents, ghost cap: nat) returns (ok: bool)
      requires i < |m.pairs| && Midway(m, i, 0, c, d, cap)
      modifies this
      ensures Valid() && Capacity(|pairs|) == cap
      ensures if ok then m.pairs == old(m.pairs) && Midway(m, i + 1, 0, c, d, cap)
              else !Fits(c, d, cap) && Stuck(c, d, contents, cap)
    {
      hide Fits, Slot, Table, PowerOfTwo, FSize, Capacity, Adding, Before, CardOk, Stuck;
      BeforeStep(m.pairs, i, 0);
      var j := 0;
      while j < |m.pairs[i]|
        invariant m.pairs == old(m.pairs) && j <= |m.pairs[i]| && Midway(m, i, j, c, d, cap)
      {
        ok := AddPair(m, i, j, c, d, cap);
        if !ok { return; }
        j := j + 1;
      }
      ok := true;
    }

    method AddPair(m: Mapping, i: nat, j: nat, ghost c: Contents, ghost d: Contents, ghost cap: nat) returns (ok: bool)
      requires i < |m.pairs| && j < |m.pairs[i]| && Midway(m, i, j, c, d, cap)
      modifies this
      ensures Valid() && Capacity(|pairs|) == cap
      ensures if ok then m.pairs == old(m.pairs) && Midway(m, i, j + 1, c, d, cap)
              else !Fits(c, d, cap) && Stuck(c, d, contents, cap)
    {
      hide Fits, Slot, Table, PowerOfTwo, FSize, Capacity, Adding, Before, CardOk, Stuck;
      CardIs(card, contents);
      var p := m.pairs[i][j];
      BeforeStep(m.pairs, i, j);
      PairIn(m.pairs, m.hash, d, i, j);
      if p.key in contents || card < cap {
        AddFits(c, d, contents, Before(m.pairs, i, j), p.key, cap);
      } else {
        AddFails(c, d, contents, Before(m.pairs, i, j), p.key, cap);
      }
      if m == this { AddSelf(c, contents, Before(m.pairs, i, j), cap); }
      ok := Put(p.key, p.val);
      if m == this { assert contents == old(contents); }
    }
  }

  /** The pairs of d can be added to c: no new key, or not too many. */
  ghost predicate Fits(c: Contents, d: Contents, cap: nat) {
    d.Keys <= c.Keys || |c + d| <= cap
  }

  ghost function Sum(c: Contents, d: Contents): Contents { c + d }

  /** Pairs of d have been added to c until there were cap keys; then one more key of d was
      put in with the value 0. */
  ghost predicate Stuck(c: Contents, d: Contents, now: Contents, cap: nat) {
    exists seen, k :: Part(seen, d) && LastKey(c, d, seen, k, cap) && now == Sum(c, seen)[k := Number(0)]
  }

  ghost predicate Part(seen: Contents, d: Contents) {
    forall k | k in seen :: k in d && seen[k] == d[k]
  }

  ghost predicate LastKey(c: Contents, d: Contents, seen: Contents, k: Value, cap: nat) {
    k in d && k !in Sum(c, seen) && |Sum(c, seen)| >= cap
  }

  /** The keys of `seen`, part of d, have been added to c, giving now; cap is the limit. */
  ghost predicate Adding(c: Contents, d: Contents, now: Contents, seen: Contents, cap: nat) {
    && now == Sum(c, seen) && Part(seen, d)
    && (now.Keys == c.Keys || |now| <= cap)
  }

  lemma AddNone(c: Contents, d: Contents, cap: nat)
    ensures Adding(c, d, c, map[], cap)
  {
  }

  lemma AddFits(c: Contents, d: Contents, now: Contents, seen: Contents, k: Value, cap: nat)
    requires Adding(c, d, now, seen, cap) && k in d && (k in now || |now| < cap)
    ensures Adding(c, d, now[k := d[k]], seen[k := d[k]], cap)
  {
    SumPut(c, seen, k, d[k]);
    SizePut(now, k, d[k]);
  }

  lemma SumPut(c: Contents, seen: Contents, k: Value, v: Value)
    ensures (c + seen)[k := v] == c + seen[k := v]
  {
  }

  lemma SizePut(c: Contents, k: Value, v: Value)
    ensures |c[k := v]| == |c| + if k in c then 0 else 1
    ensures k in c ==> c[k := v].Keys == c.Keys
  {
    if k in c {
      assert c[k := v].Keys == c.Keys;
      assert |c[k := v]| == |c[k := v].Keys| == |c.Keys| == |c|;
    }
  }

  lemma AddFails(c: Contents, d: Contents, now: Contents, seen: Contents, k: Value, cap: nat)
    requires Adding(c, d, now, seen, cap) && k in d && k !in now && |now| >= cap
    ensures !Fits(c, d, cap) && Stuck(c, d, now[k := Number(0)], cap)
  {
    assert LastKey(c, d, seen, k, cap);
    assert now.Keys + {k} <= (c + d).Keys;
    SubsetSize(now.Keys + {k}, (c + d).Keys);
    assert |c + d| == |(c + d).Keys| && |now| == |now.Keys|;
  }

  lemma AddSelf(c: Contents, now: Contents, seen: Contents, cap: nat)
    requires Adding(c, c, now, seen, cap)
    ensures now == c
  {
  }

  lemma SubsetSize(a: set<Value>, b: set<Value>)
    requires a <= b
    ensures |a| <= |b|
  {
    assert b == a + (b - a);
  }

  lemma AllAdded(c: Contents, d: Contents, now: Contents, cap: nat)
    requires Adding(c, d, now, d, cap)
    ensures now == Sum(c, d) && Fits(c, d, cap)
  {
    if now.Keys == c.Keys { assert d.Keys <= now.Keys; }
  }

  lemma NonEmpty(t: seq<Chain>, hash: Value -> int, c: Contents)
    requires Table(t, hash, c)
    ensures |t| > 0
  {
  }

  // ---- operations that make a new mapping --------------------------------------------

  /** add_mapping: the union, the second mapping prevailing. */
  method AddMapping(m1: Mapping, m2: Mapping) returns (r: Mapping, ok: bool)
    requires m1.Valid() && m2.Valid()
    ensures r.Valid() && fresh(r)
    ensures ok <==> |m1.contents + m2.contents| <= FSize(8192)
    ensures ok ==> r.contents == m1.contents + m2.contents
  {
    hide Table, Capacity, FSize, PowerOfTwo, Fits;
    r := new Mapping(m1.card + m2.card, m1.hash);
    SumFits(m1.contents, m2.contents, |r.pairs|);
    ok := r.AddTo(m1);
    if ok { ok := r.AddTo(m2); }
  }

  lemma SumFits(c: Contents, d: Contents, size: nat)
    requires PowerOfTwo(size) && (|c| + |d| <= FSize(size) || size == 8192)
    ensures map[] + c == c
    ensures |c + d| <= FSize(8192) <==> Fits(map[], c, Capacity(size)) && Fits(c, d, Capacity(size))
  {
    hide PowerOfTwo, FSize, Capacity;
    SumRoom(c, d, size);
    EmptyFits(c, Capacity(size));
  }

  lemma EmptyFits(c: Contents, cap: nat)
    ensures map[] + c == c && (Fits(map[], c, cap) <==> |c| <= cap)
  {
    assert map[] + c == c;
    if c.Keys <= {} { assert c == map[]; }
  }

  /** A table allocated for all pairs of both takes their union unless no table does. */
  lemma SumRoom(c: Contents, d: Contents, size: nat)
    requires PowerOfTwo(size) && (|c| + |d| <= FSize(size) || size == 8192)
    ensures |c + d| <= Capacity(size) <==> |c + d| <= FSize(8192)
    ensures |c| <= |c + d|
    ensures d.Keys <= c.Keys ==> |c + d| == |c|
  {
    hide PowerOfTwo, Capacity, FSize;
    SubsetSize(c.Keys, (c + d).Keys);
    assert (c + d).Keys == c.Keys + d.Keys;
    assert |c + d| == |(c + d).Keys| && |c| == |c.Keys| && |d| == |d.Keys|;
    UnionSize(c.Keys, d.Keys);
    if d.Keys <= c.Keys { assert (c + d).Keys == c.Keys; }
    RoomEnough(size, |c + d|, |c| + |d|);
  }

  lemma RoomEnough(size: nat, n: nat, most: nat)
    requires PowerOfTwo(size) && n <= most && (most <= FSize(size) || size == 8192)
    ensures n <= Capacity(size) <==> n <= FSize(8192)
  {
  }

  lemma UnionSize(a: set<Value>, b: set<Value>)
    ensures |a + b| <= |a| + |b|
  {
    assert a + b == a + (b - a);
    SubsetSize(b - a, b);
  }

  /** remove_mapping: all pairs but that of k, put into a new mapping.  A mapping that was
      allocated larger than a table can grow may not fit there. */
  method RemoveMapping(m: Mapping, k: Value) returns (r: Mapping, ok: bool)
    requires m.Valid()
    ensures r.Valid() && fresh(r)
    ensures ok <==> |m.contents - {k}| <= FSize(4096)
    ensures ok ==> r.contents == m.contents - {k}
  {
    hide Table, FSize, PowerOfTwo, Capacity, Fits, Slot, CardOk;
    r := new Mapping(|m.pairs|, m.hash);
    RemoveRoom(|m.pairs|, |r.pairs|);
    NonEmpty(m.pairs, m.hash, m.contents);
    EmptyFits(But(m.contents, k), FSize(4096));
    ok := CopyBut(m.pairs, m.hash, m.contents, r, k, Slot(m.hash(k), |m.pairs|), FSize(4096));
  }

  lemma RemoveRoom(oldSize: nat, newSize: nat)
    requires PowerOfTwo(oldSize) && PowerOfTwo(newSize)
               && (newSize == 1 || newSize <= 2 * (oldSize * 100 / FILL_FACTOR))
    ensures Capacity(newSize) == FSize(4096)
  {
  }

  /** The pairs of the table t before pair j of chain i, but not that of k, are in r. */
  ghost predicate MidwayBut(t: seq<Chain>, hash: Value -> int, c: Contents, r: Mapping, k: Value, i: nat, j: nat,
                            cap: nat)
    requires i <= |t| && (i < |t| ==> j <= |t[i]|) && (i == |t| ==> j == 0)
    reads r
  {
    Table(t, hash, c) && r.Valid() && Capacity(|r.pairs|) == cap
        && Adding(map[], But(c, k), r.contents, But(Before(t, i, j), k), cap)
  }

  method CopyBut(t: seq<Chain>, hash: Value -> int, ghost c: Contents, r: Mapping, k: Value, h: nat, ghost cap: nat)
      returns (ok: bool)
    requires r.Valid() && r.contents == map[] && Capacity(|r.pairs|) == cap
    requires Table(t, hash, c) && h == Slot(hash(k), |t|)
    modifies r
    ensures r.Valid() && (ok <==> Fits(map[], But(c, k), cap)) && (ok ==> r.contents == But(c, k))
  {
    hide Table, Slot, Adding, Capacity, FSize, PowerOfTwo, Fits, Before, But, CardOk;
    AddNone(map[], But(c, k), cap);
    NonEmpty(t, hash, c);
    BeforeStep(t, 0, 0);
    ButNone(k);
    var i := 0;
    while i < |t|
      invariant i <= |t| && MidwayBut(t, hash, c, r, k, i, 0, cap)
    {
      ok := CopyChainBut(t, hash, c, r, k, h, i, cap);
      if !ok { return; }
      i := i + 1;
    }
    MetAll(t, hash, c);
    AllAdded(map[], But(c, k), r.contents, cap);
    EmptyFits(But(c, k), cap);
    ok := true;
  }

  method CopyChainBut(t: seq<Chain>, hash: Value -> int, ghost c: Contents, r: Mapping, k: Value, h: nat, i: nat,
                      ghost cap: nat)
    returns (ok: bool)
    requires i < |t| && h == Slot(hash(k), |t|) && MidwayBut(t, hash, c, r, k, i, 0, cap)
    modifies r
    ensures r.Valid() && if ok then MidwayBut(t, hash, c, r, k, i + 1, 0, cap) else !Fits(map[], But(c, k), cap)
  {
    hide Table, Slot, Adding, Capacity, FSize, PowerOfTwo, Fits, Before, But, CardOk;
    BeforeStep(t, i, 0);
    var j := 0;
    while j < |t[i]|
      invariant j <= |t[i]| && MidwayBut(t, hash, c, r, k, i, j, cap)
    {
      ok := CopyPairBut(t, hash, c, r, k, h, i, j, cap);
      if !ok { return; }
      j := j + 1;
    }
    ok := true;
  }

  method CopyPairBut(t: seq<Chain>, hash: Value -> int, ghost c: Contents, r: Mapping, k: Value, h: nat, i: nat, j: nat,
                     ghost cap: nat)
    returns (ok: bool)
    requires i < |t| && j < |t[i]| && h == Slot(hash(k), |t|) && MidwayBut(t, hash, c, r, k, i, j, cap)
    modifies r
    ensures r.Valid() && if ok then MidwayBut(t, hash, c, r, k, i, j + 1, cap) else !Fits(map[], But(c, k), cap)
  {
    hide Table, Slot, Adding, Capacity, FSize, PowerOfTwo, Fits, Before, But;
    var p := t[i][j];
    ghost var d, seen := But(c, k), Before(t, i, j);
    BeforeStep(t, i, j);
    PairIn(t, hash, c, i, j);
    if p.key != k { ButIn(c, k, p.key); }
    DropPut(seen, k, p.key, p.val);
    ok := true;
    if !(h == i && k == p.key) {
      if p.key in r.contents || r.card < cap {
        AddFits(map[], d, r.contents, But(seen, k), p.key, cap);
      } else {
        AddFails(map[], d, r.contents, But(seen, k), p.key, cap);
      }
      ok := r.Put(p.key, p.val);
    }
  }

  ghost function But(c: Contents, k: Value): Contents { c - {k} }

  lemma ButNone(k: Value)
    ensures But(map[], k) == map[]
  {
  }

  lemma ButIn(c: Contents, k: Value, x: Value)
    requires x in c && x != k
    ensures x in But(c, k) && But(c, k)[x] == c[x]
  {
  }

  lemma DropPut(c: Contents, k: Value, x: Value, v: Value)
    ensures But(c[x := v], k) == if x == k then But(c, k) else But(c, k)[x := v]
  {
  }

  /** copy_mapping: the chains come out reversed, the contents do not change. */
  method CopyMapping(m: Mapping) returns (r: Mapping)
    requires m.Valid()
    ensures r.Valid() && fresh(r) && r.contents == m.contents && |r.pairs| == |m.pairs|
  {
    hide Table, Slot, Capacity, FSize, PowerOfTwo;
    r := new Mapping(0, m.hash);
    var t: seq<Chain> := seq(|m.pairs|, _ => []);
    var i := 0;
    NonEmpty(m.pairs, m.hash, m.contents);
    TableEmpty(|m.pairs|, m.hash);
    while i < |m.pairs|
      modifies {}
      invariant i <= |m.pairs| && |t| == |m.pairs| && Table(t, m.hash, Before(m.pairs, i, 0))
    {
      t := m.MoveChain(i, t);
      i := i + 1;
    }
    MetAll(m.pairs, m.hash, m.contents);
    r.pairs, r.card, r.mcard := t, m.card, m.mcard;
    r.contents := m.contents;
  }

  /** filter_map: the pairs whose value the predicate accepts. */
  method FilterMap(m: Mapping, keep: Value -> bool) returns (r: Mapping)
    requires m.Valid()
    ensures r.Valid() && fresh(r)
    ensures r.contents == map k | k in m.contents && keep(m.contents[k]) :: m.contents[k]
  {
    hide Table, Slot, Capacity, FSize, PowerOfTwo;
    r := CopyMapping(m);
    ghost var c := r.contents;
    var i := 0;
    while i < |r.pairs|
      modifies r
      invariant r.Valid() && i <= |r.pairs| && Kept(c, r.contents, keep)
      invariant forall b, j | 0 <= b < i && 0 <= j < |r.pairs[b]| :: keep(r.pairs[b][j].val)
    {
      FilterChain(r, i, keep, c);
      i := i + 1;
    }
    forall k | k in r.contents ensures keep(r.contents[k]) { AllKept(r.pairs, r.hash, r.contents, keep, k); }
  }

  /** What was dropped from c was not to be kept. */
  ghost predicate Kept(c: Contents, now: Contents, keep: Value -> bool) {
    && (forall k | k in now :: k in c && now[k] == c[k])
    && (forall k | k in c && k !in now :: !keep(c[k]))
  }

  lemma AllKept(t: seq<Chain>, hash: Value -> int, c: Contents, keep: Value -> bool, k: Value)
    requires Table(t, hash, c) && k in c
    requires forall b, j | 0 <= b < |t| && 0 <= j < |t[b]| :: keep(t[b][j].val)
    ensures keep(c[k])
  {
    hide Slot, ChainOk;
    var b := Slot(hash(k), |t|);
    assert Get(c, k) == Look(t[b], k);
    LookNone(t[b], k);
    var j :| 0 <= j < |t[b]| && t[b][j].key == k;
    PairIn(t, hash, c, b, j);
  }

  method FilterChain(r: Mapping, i: nat, keep: Value -> bool, ghost c: Contents)
    requires r.Valid() && i < |r.pairs| && Kept(c, r.contents, keep)
    modifies r
    ensures r.Valid() && Kept(c, r.contents, keep) && |r.pairs| == old(|r.pairs|)
    ensures forall b | 0 <= b < |r.pairs| && b != i :: r.pairs[b] == old(r.pairs[b])
    ensures forall j | 0 <= j < |r.pairs[i]| :: keep(r.pairs[i][j].val)
  {
    hide Table, Slot, Capacity, FSize, PowerOfTwo, CardOk;
    var j := 0;
    while j < |r.pairs[i]|
      modifies r
      invariant r.Valid() && Kept(c, r.contents, keep) && |r.pairs| == old(|r.pairs|) && j <= |r.pairs[i]|
      invariant forall b | 0 <= b < |r.pairs| && b != i :: r.pairs[b] == old(r.pairs[b])
      invariant forall k | 0 <= k < j :: keep(r.pairs[i][k].val)
      decreases |r.pairs[i]| - j
    {
      var p := r.pairs[i][j];
      PairIn(r.pairs, r.hash, r.contents, i, j);
      if !keep(p.val) {
        TableRemove(r.pairs, r.hash, r.contents, i, j);
        CardDrop(r.card, r.contents, p.key);
        r.pairs := r.pairs[i := Without(r.pairs[i], j)];
        r.contents := r.contents - {p.key};
        r.card := r.card - 1;
      } else {
        j := j + 1;
      }
    }
  }

  lemma CardDrop(card: nat, c: Contents, k: Value)
    requires CardOk(card, c) && k in c
    ensures card > 0 && CardOk(card - 1, c - {k}) && card == |c| && card - 1 == |c - {k}|
  {
    SizeDrop(c, k);
  }

  lemma SizeDrop(c: Contents, k: Value)
    requires k in c
    ensures |c - {k}| == |c| - 1
  {
    assert (c - {k}).Keys == c.Keys - {k};
    assert |c - {k}| == |(c - {k}).Keys|;
  }

  const MAX_ARRAY_SIZE: nat := 5000

  /** The first n keys and values, a later pair replacing an earlier one of the same key. */
  ghost function Zipped(ind: seq<Value>, val: seq<Value>, n: nat): (c: Contents)
    requires n <= |ind| && n <= |val|
    ensures forall k :: k in c <==> k in ind[..n]
  {
    if n == 0 then map[] else
    assert ind[..n] == ind[..n - 1] + [ind[n - 1]];
    Zipped(ind, val, n - 1)[ind[n - 1] := val[n - 1]]
  }

  function Numbers(n: nat): seq<Value> { seq(n, i => Number(i)) }

  /** The value of a key is that of its last occurrence. */
  lemma {:induction false} ZippedLast(ind: seq<Value>, val: seq<Value>, n: nat, j: nat)
    requires j < n <= |ind| && n <= |val| && forall i | j < i < n :: ind[i] != ind[j]
    ensures Zipped(ind, val, n)[ind[j]] == val[j]
  {
    if j < n - 1 { ZippedLast(ind, val, n - 1, j); }
  }

  /** Without an array of keys, the keys are the numbers from 0 on. */
  lemma KeysFromZero(val: seq<Value>)
    ensures var c := Zipped(Numbers(|val|), val, |val|);
            && (forall k :: k in c <==> k.Number? && 0 <= k.n < |val|)
            && (forall i | 0 <= i < |val| :: c[Number(i)] == val[i])
  {
    var ind, n := Numbers(|val|), |val|;
    assert ind[..n] == ind;
    forall k: Value | k.Number? && 0 <= k.n < n ensures k in ind { assert ind[k.n] == k; }
    forall i | 0 <= i < n ensures Zipped(ind, val, n)[Number(i)] == val[i] {
      ZippedLast(ind, val, n, i);
      assert ind[i] == Number(i);
    }
  }

  /** Without an array of values, the value of a key is where it stands last. */
  lemma ValuesFromZero(ind: seq<Value>)
    ensures var c := Zipped(ind, Numbers(|ind|), |ind|);
            && (forall k :: k in c <==> k in ind)
            && (forall j | 0 <= j < |ind| && ind[j] !in ind[j + 1..] :: c[ind[j]] == Number(j))
  {
    var n := |ind|;
    assert ind[..n] == ind;
    forall j | 0 <= j < n && ind[j] !in ind[j + 1..] ensures Zipped(ind, Numbers(n), n)[ind[j]] == Number(j) {
      forall i | j < i < n ensures ind[i] != ind[j] { assert ind[i] in ind[j + 1..]; }
      ZippedLast(ind, Numbers(n), n, j);
    }
  }

  /** make_mapping: an array that is not given stands for the numbers from 0 on.  Arrays
      are never so large that the mapping could not hold them. */
  method MakeMapping(ind: Maybe<seq<Value>>, val: Maybe<seq<Value>>, hash: Value -> int) returns (m: Mapping)
    requires ind.Some? ==> |ind.value| <= MAX_ARRAY_SIZE
    requires val.Some? ==> |val.value| <= MAX_ARRAY_SIZE
    ensures m.Valid() && fresh(m)
    ensures ind.None? && val.None? ==> m.contents == map[]
    ensures ind.Some? && val.None? ==>
              && (forall k :: k in m.contents <==> k in ind.value)
              && (forall j | 0 <= j < |ind.value| && ind.value[j] !in ind.value[j + 1..] ::
                    m.contents[ind.value[j]] == Number(j))
    ensures ind.None? && val.Some? ==>
              && (forall k :: k in m.contents <==> k.Number? && 0 <= k.n < |val.value|)
              && (forall i | 0 <= i < |val.value| :: m.contents[Number(i)] == val.value[i])
    ensures ind.Some? && val.Some? ==>
              m.contents == Zipped(ind.value, val.value, if |ind.value| < |val.value| then |ind.value| else |val.value|)
  {
    hide Table, Capacity, FSize, PowerOfTwo, Zipped;
    if ind.Some? && val.Some? {
      m := Filled(ind.value, val.value, if |ind.value| < |val.value| then |ind.value| else |val.value|, hash);
    } else if ind.Some? {
      m := Filled(ind.value, Numbers(|ind.value|), |ind.value|, hash);
      ValuesFromZero(ind.value);
    } else if val.Some? {
      m := Filled(Numbers(|val.value|), val.value, |val.value|, hash);
      KeysFromZero(val.value);
    } else {
      m := new Mapping(0, hash);
    }
  }

  /** The first i pairs are in, and there is room for n. */
  ghost predicate Filling(m: Mapping, ind: seq<Value>, val: seq<Value>, i: nat, n: nat)
    requires i <= |ind| && i <= |val|
    reads m
  {
    m.Valid() && m.contents == Zipped(ind, val, i) && |m.contents| <= i && n < Capacity(|m.pairs|)
  }

  method Filled(ind: seq<Value>, val: seq<Value>, n: nat, hash: Value -> int) returns (m: Mapping)
    requires n <= |ind| && n <= |val| && n <= MAX_ARRAY_SIZE
    ensures m.Valid() && fresh(m) && m.contents == Zipped(ind, val, n)
  {
    hide Filling;
    m := Room(ind, val, n, hash);
    var i := 0;
    while i < n
      modifies m
      invariant i <= n && Filling(m, ind, val, i, n)
    {
      PutNext(m, ind, val, i, n);
      i := i + 1;
    }
    FilledAll(m, ind, val, n);
  }

  lemma FilledAll(m: Mapping, ind: seq<Value>, val: seq<Value>, n: nat)
    requires n <= |ind| && n <= |val| && Filling(m, ind, val, n, n)
    ensures m.Valid() && m.contents == Zipped(ind, val, n)
  {
  }

  method Room(ind: seq<Value>, val: seq<Value>, n: nat, hash: Value -> int) returns (m: Mapping)
    requires n <= MAX_ARRAY_SIZE
    ensures fresh(m) && Filling(m, ind, val, 0, n)
  {
    hide Table, Zipped, CardOk, Capacity, FSize, PowerOfTwo;
    m := new Mapping(n, hash);
    RoomFor(|m.pairs|, n);
    ZippedStep(ind, val, 0);
  }

  lemma RoomFor(size: nat, n: nat)
    requires PowerOfTwo(size) && n <= MAX_ARRAY_SIZE && (n <= FSize(size) || size == 8192)
    ensures n < Capacity(size)
  {
  }

  method PutNext(m: Mapping, ind: seq<Value>, val: seq<Value>, i: nat, n: nat)
    requires i < n <= |ind| && n <= |val| && Filling(m, ind, val, i, n)
    modifies m
    ensures Filling(m, ind, val, i + 1, n)
  {
    hide Table, Zipped, CardOk, Capacity, FSize, PowerOfTwo;
    SizePut(m.contents, ind[i], val[i]);
    CardIs(m.card, m.contents);
    ZippedStep(ind, val, i);
    var ok := m.Put(ind[i], val[i]);
  }

  lemma ZippedStep(ind: seq<Value>, val: seq<Value>, i: nat)
    requires i <= |ind| && i <= |val|
    ensures Zipped(ind, val, 0) == map[]
    ensures i < |ind| && i < |val| ==> Zipped(ind, val, i + 1) == Zipped(ind, val, i)[ind[i] := val[i]]
  {
  }

  // ---- runs in which it fails --------------------------------------------------------------

  ghost function NumberKeys(from: int, n: nat): (s: set<Value>)
    ensures |s| == n && forall k :: k in s <==> k.Number? && from <= k.n < from + n
  {
    if n == 0 then {} else
    var s := NumberKeys(from, n - 1);
    assert Number(from + n - 1) !in s;
    s + {Number(from + n - 1)}
  }

  /** A mapping of the numbers from `from` on, as many as a table grows to hold. */
  method NumberMapping(from: int, n: nat, hash: Value -> int) returns (m: Mapping)
    requires n <= FSize(4096)
    ensures m.Valid() && fresh(m) && m.contents.Keys == NumberKeys(from, n)
    ensures Capacity(|m.pairs|) == FSize(4096)
  {
    hide Table;
    m := new Mapping(0, hash);
    assert Capacity(|m.pairs|) == FSize(4096);
    hide Capacity, FSize, PowerOfTwo, CardOk;
    var i := 0;
    while i < n
      modifies m
      invariant i <= n && m.Valid() && m.contents.Keys == NumberKeys(from, i) && Capacity(|m.pairs|) == FSize(4096)
    {
      KeyCount(m.contents);
      CardIs(m.card, m.contents);
      var ok := m.Put(Number(from + i), Number(1));
      i := i + 1;
    }
  }

  lemma KeyCount(c: Contents)
    ensures |c| == |c.Keys|
  {
  }

  lemma FullSizes()
    ensures FSize(4096) == 10240 && FSize(8192) == 20480
  {
  }

  lemma SumOfNumbers(c: Contents, d: Contents)
    requires c.Keys == NumberKeys(0, 10240) && d.Keys == NumberKeys(10240, 10240)
    ensures (c + d).Keys == NumberKeys(0, 20480) && |c + d| == 20480 && |(c + d) - {Number(0)}| == 20479
  {
    SumKeys(c, d);
    TwoHalves();
    KeyCount(c + d);
    SizeDrop(c + d, Number(0));
  }

  lemma SumKeys(c: Contents, d: Contents)
    ensures (c + d).Keys == c.Keys + d.Keys
  {
  }

  lemma TwoHalves()
    ensures NumberKeys(0, 10240) + NumberKeys(10240, 10240) == NumberKeys(0, 20480) && Number(0) in NumberKeys(0, 20480)
  {
    hide NumberKeys;
  }

  /** Two mappings are added, and then no key can be removed from the sum. */
  method RemovalFails(hash: Value -> int) returns (m: Mapping, r: Mapping, ok: bool)
    ensures m.Valid() && m.contents.Keys == NumberKeys(0, 20480) && !ok
  {
    hide Table, PowerOfTwo, Capacity, FSize, NumberKeys, CardOk;
    FullSizes();
    var m1 := NumberMapping(0, 10240, hash);
    var m2 := NumberMapping(10240, 10240, hash);
    SumOfNumbers(m1.contents, m2.contents);
    m, ok := AddMapping(m1, m2);
    r, ok := RemoveMapping(m, Number(0));
  }

  lemma OneNumberMore(c: Contents, v: Value)
    requires c.Keys == NumberKeys(0, 10240)
    ensures |c| == 10240 && Number(10240) !in c && c[Number(10240) := v].Keys == NumberKeys(0, 10241)
  {
    KeyCount(c);
  }

  /** A key is put into a full mapping: an error, and the key is there with the value 0. */
  method InsertionFails(hash: Value -> int) returns (m: Mapping, ok: bool)
    ensures m.Valid() && m.contents.Keys == NumberKeys(0, 10241) && !ok && m.contents[Number(10240)] == Number(0)
  {
    hide Table, PowerOfTwo, Capacity, FSize, NumberKeys, CardOk;
    FullSizes();
    m := NumberMapping(0, 10240, hash);
    OneNumberMore(m.contents, Number(0));
    CardIs(m.card, m.contents);
    ok := m.Put(Number(10240), Number(1));
  }
}
