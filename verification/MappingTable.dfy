/** The hash table of a mapping (src/mapping.c) and what it means as a finite map. */
module MappingTable {

  datatype Maybe<T> = None | Some(value: T)

  /** LPC values as keys and values: vectors, mappings and live objects by identity. */
  datatype Value = Number(n: int) | Text(s: string) | Reference(address: nat)

  datatype Pair = Pair(key: Value, val: Value, hashval: int)

  type Chain = seq<Pair>
  type Contents = map<Value, Value>

  /** `h & (size - 1)`, for a size that is a power of two. */
  function Slot(h: int, size: nat): (b: nat)
    requires size > 0
    ensures b < size
  {
    h % size
  }

  function Look(l: Chain, k: Value): Maybe<Value> {
    if l == [] then None else if l[0].key == k then Some(l[0].val) else Look(l[1..], k)
  }

  function Get(c: Contents, k: Value): Maybe<Value> { if k in c then Some(c[k]) else None }

  /** Chain b holds pairs that belong there, with their hash values, none twice. */
  ghost predicate ChainOk(l: Chain, hash: Value -> int, size: nat, b: nat)
    requires size > 0
  {
    && (forall i | 0 <= i < |l| :: l[i].hashval == hash(l[i].key) && Slot(l[i].hashval, size) == b)
    && (forall i, j | 0 <= i < j < |l| :: l[i].key != l[j].key)
  }

  /** Looking a key up in the one chain it may be in is looking it up in the contents. */
  ghost predicate Table(t: seq<Chain>, hash: Value -> int, c: Contents) {
    && |t| > 0
    && (forall b | 0 <= b < |t| :: ChainOk(t[b], hash, |t|, b))
    && (forall k :: Get(c, k) == Look(t[Slot(hash(k), |t|)], k))
  }

  // ---- one chain ------------------------------------------------------------------

  lemma {:induction false} LookAt(l: Chain, i: nat)
    requires i < |l| && forall j | 0 <= j < i :: l[j].key != l[i].key
    ensures Look(l, l[i].key) == Some(l[i].val)
  {
    if i > 0 { LookAt(l[1..], i - 1); }
  }

  lemma {:induction false} LookNone(l: Chain, k: Value)
    ensures Look(l, k) == None <==> forall i | 0 <= i < |l| :: l[i].key != k
  {
    if l != [] { LookNone(l[1..], k); }
  }

  lemma {:induction false} LookSet(l: Chain, i: nat, v: Value, k: Value)
    requires i < |l| && forall j | 0 <= j < i :: l[j].key != l[i].key
    ensures Look(l[i := l[i].(val := v)], k) == if k == l[i].key then Some(v) else Look(l, k)
  {
    if i > 0 {
      assert l[i := l[i].(val := v)][1..] == l[1..][i - 1 := l[i].(val := v)];
      LookSet(l[1..], i - 1, v, k);
    }
  }

  function Without(l: Chain, i: nat): Chain
    requires i < |l|
  {
    l[..i] + l[i + 1..]
  }

  lemma {:induction false} LookWithout(l: Chain, i: nat, k: Value)
    requires i < |l| && forall j | 0 <= j < |l| && j != i :: l[j].key != l[i].key
    ensures Look(Without(l, i), k) == if k == l[i].key then None else Look(l, k)
  {
    if i == 0 {
      assert Without(l, i) == l[1..];
      LookNone(l[1..], l[0].key);
    } else {
      assert Without(l, i)[1..] == Without(l[1..], i - 1) && Without(l, i)[0] == l[0];
      LookWithout(l[1..], i - 1, k);
    }
  }

  // ---- what changes in a table mean -------------------------------------------------

  lemma TableEmpty(size: nat, hash: Value -> int)
    requires size > 0
    ensures Table(seq(size, _ => []), hash, map[])
  {
  }

  /** A new pair in front of its chain. */
  lemma TableInsert(t: seq<Chain>, hash: Value -> int, c: Contents, k: Value, v: Value)
    requires Table(t, hash, c) && k !in c
    ensures var b := Slot(hash(k), |t|); Table(t[b := [Pair(k, v, hash(k))] + t[b]], hash, c[k := v])
  {
    var b := Slot(hash(k), |t|);
    var t' := t[b := [Pair(k, v, hash(k))] + t[b]];
    InsertedChain(t[b], hash, |t|, k, v);
    forall x ensures Get(c[k := v], x) == Look(t'[Slot(hash(x), |t|)], x) {
      hide ChainOk, Slot;
      assert Get(c, x) == Look(t[Slot(hash(x), |t|)], x);
    }
  }

  lemma InsertedChain(l: Chain, hash: Value -> int, size: nat, k: Value, v: Value)
    requires size > 0 && ChainOk(l, hash, size, Slot(hash(k), size)) && Look(l, k) == None
    ensures ChainOk([Pair(k, v, hash(k))] + l, hash, size, Slot(hash(k), size))
    ensures forall x :: Look([Pair(k, v, hash(k))] + l, x) == if x == k then Some(v) else Look(l, x)
  {
    hide Slot;
    LookNone(l, k);
    var l' := [Pair(k, v, hash(k))] + l;
    assert l'[1..] == l;
  }

  /** Pair i of chain b gets a new value. */
  lemma TableAssign(t: seq<Chain>, hash: Value -> int, c: Contents, b: nat, i: nat, v: Value)
    requires Table(t, hash, c) && b < |t| && i < |t[b]|
    ensures Table(t[b := t[b][i := t[b][i].(val := v)]], hash, c[t[b][i].key := v])
  {
    hide Slot;
    var k := t[b][i].key;
    assert ChainOk(t[b], hash, |t|, b);
    var t' := t[b := t[b][i := t[b][i].(val := v)]];
    assert ChainOk(t'[b], hash, |t|, b);
    forall x ensures Get(c[k := v], x) == Look(t'[Slot(hash(x), |t|)], x) {
      assert Get(c, x) == Look(t[Slot(hash(x), |t|)], x);
      LookSet(t[b], i, v, x);
    }
  }

  /** Pair i of chain b goes. */
  lemma TableRemove(t: seq<Chain>, hash: Value -> int, c: Contents, b: nat, i: nat)
    requires Table(t, hash, c) && b < |t| && i < |t[b]|
    ensures Table(t[b := Without(t[b], i)], hash, c - {t[b][i].key})
  {
    hide Slot;
    var k := t[b][i].key;
    assert ChainOk(t[b], hash, |t|, b);
    var t' := t[b := Without(t[b], i)];
    assert ChainOk(t'[b], hash, |t|, b);
    forall x ensures Get(c - {k}, x) == Look(t'[Slot(hash(x), |t|)], x) {
      assert Get(c, x) == Look(t[Slot(hash(x), |t|)], x);
      LookWithout(t[b], i, x);
    }
  }

  /** A pair of the table is in its contents. */
  lemma PairIn(t: seq<Chain>, hash: Value -> int, c: Contents, b: nat, i: nat)
    requires Table(t, hash, c) && b < |t| && i < |t[b]|
    ensures var p := t[b][i]; p.key in c && c[p.key] == p.val && p.hashval == hash(p.key) && b == Slot(p.hashval, |t|)
  {
    hide Slot;
    assert ChainOk(t[b], hash, |t|, b);
    LookAt(t[b], i);
    assert Get(c, t[b][i].key) == Look(t[Slot(hash(t[b][i].key), |t|)], t[b][i].key);
  }

  // ---- walking a table, chain by chain ----------------------------------------------

  /** What the walk has met before pair i of chain b. */
  ghost function Before(t: seq<Chain>, b: nat, i: nat): Contents
    requires b <= |t| && (b < |t| ==> i <= |t[b]|) && (b == |t| ==> i == 0)
    decreases b, i
  {
    if i > 0 then Before(t, b, i - 1)[t[b][i - 1].key := t[b][i - 1].val]
    else if b > 0 then Before(t, b - 1, |t[b - 1]|)
    else map[]
  }

  lemma BeforeStep(t: seq<Chain>, b: nat, i: nat)
    requires b < |t| && i <= |t[b]|
    ensures Before(t, 0, 0) == map[] && Before(t, b + 1, 0) == Before(t, b, |t[b]|)
    ensures i < |t[b]| ==> Before(t, b, i + 1) == Before(t, b, i)[t[b][i].key := t[b][i].val]
  {
  }

  /** The walk meets every pair once ... */
  lemma {:induction false} MetBefore(t: seq<Chain>, hash: Value -> int, c: Contents, b: nat, i: nat, k: Value)
    requires Table(t, hash, c) && b <= |t| && (b < |t| ==> i <= |t[b]|) && (b == |t| ==> i == 0)
    requires k in Before(t, b, i)
    ensures k in c && Before(t, b, i)[k] == c[k]
    ensures var s := Slot(hash(k), |t|); s < b || (s == b < |t| && exists j | 0 <= j < i :: t[b][j].key == k)
    decreases b, i
  {
    hide Slot, Table;
    if i > 0 {
      PairIn(t, hash, c, b, i - 1);
      if k != t[b][i - 1].key { MetBefore(t, hash, c, b, i - 1, k); }
    } else if b > 0 {
      MetBefore(t, hash, c, b - 1, |t[b - 1]|, k);
    }
  }

  lemma NotMet(t: seq<Chain>, hash: Value -> int, c: Contents, b: nat, i: nat)
    requires Table(t, hash, c) && b < |t| && i < |t[b]|
    ensures t[b][i].key !in Before(t, b, i)
  {
    hide Slot;
    var k := t[b][i].key;
    PairIn(t, hash, c, b, i);
    assert ChainOk(t[b], hash, |t|, b);
    if k in Before(t, b, i) { MetBefore(t, hash, c, b, i, k); }
  }

  lemma {:induction false} MetPair(t: seq<Chain>, b: nat, i: nat, d: nat, j: nat)
    requires b < |t| && i < |t[b]| && d <= |t| && (d < |t| ==> j <= |t[d]|) && (d == |t| ==> j == 0)
    requires b < d || (b == d && i < j)
    ensures t[b][i].key in Before(t, d, j)
    decreases d, j
  {
    if j > 0 {
      if !(b == d && i == j - 1) { MetPair(t, b, i, d, j - 1); }
    } else {
      MetPair(t, b, i, d - 1, |t[d - 1]|);
    }
  }

  /** ... and in the end has met them all. */
  lemma MetAll(t: seq<Chain>, hash: Value -> int, c: Contents)
    requires Table(t, hash, c)
    ensures Before(t, |t|, 0) == c
  {
    hide Slot, ChainOk;
    forall k | k in Before(t, |t|, 0) ensures k in c && Before(t, |t|, 0)[k] == c[k] {
      MetBefore(t, hash, c, |t|, 0, k);
    }
    forall k | k in c ensures k in Before(t, |t|, 0) {
      var b := Slot(hash(k), |t|);
      assert Get(c, k) == Look(t[b], k);
      LookNone(t[b], k);
      var i :| 0 <= i < |t[b]| && t[b][i].key == k;
      MetPair(t, b, i, |t|, 0);
    }
  }

  // ---- how many -----------------------------------------------------------------------

  function Total(t: seq<Chain>): nat { if t == [] then 0 else Total(t[..|t| - 1]) + |t[|t| - 1]| }

  lemma {:induction false} BeforeSize(t: seq<Chain>, hash: Value -> int, c: Contents, b: nat, i: nat)
    requires Table(t, hash, c) && b <= |t| && (b < |t| ==> i <= |t[b]|) && (b == |t| ==> i == 0)
    ensures |Before(t, b, i)| == Total(t[..b]) + i
    decreases b, i
  {
    hide Slot, Table;
    if i > 0 {
      BeforeSize(t, hash, c, b, i - 1);
      NotMet(t, hash, c, b, i - 1);
    } else if b > 0 {
      BeforeSize(t, hash, c, b - 1, |t[b - 1]|);
      assert t[..b][..b - 1] == t[..b - 1];
    }
  }

  /** There are as many pairs as keys. */
  lemma PairsCounted(t: seq<Chain>, hash: Value -> int, c: Contents)
    requires Table(t, hash, c)
    ensures Total(t) == |c|
  {
    hide Table;
    MetAll(t, hash, c);
    BeforeSize(t, hash, c, |t|, 0);
    assert t[..|t|] == t;
  }
}
