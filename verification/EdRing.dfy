/** The line list of the editor (src/ed.c): a ring of lines linked both ways.

    Memory is a map from addresses to lines; address 0 is the line before the first,
    which is always there and is never freed.
 */
module EdRing {

  datatype Line = Line(prev: nat, next: nat, text: string)

  type Memory = map<nat, Line>

  ghost predicate Linked(m: Memory, a: nat, b: nat) {
    a in m && b in m && m[a].next == b && m[b].prev == a
  }

  /** Each is linked to the next. */
  ghost predicate Chain(m: Memory, s: seq<nat>) {
    forall k | 0 <= k < |s| - 1 :: Linked(m, s[k], s[k + 1])
  }

  ghost predicate Distinct(s: seq<nat>) {
    forall i, j | 0 <= i < j < |s| :: s[i] != s[j]
  }

  /** The lines in order, from line 0 around to line 0 again. */
  ghost predicate Closed(m: Memory, ring: seq<nat>) {
    && |ring| > 0 && ring[0] == 0 && Distinct(ring)
    && Chain(m, ring + [0])
    && forall a | a in ring :: a in m
  }

  /** ... and nothing else is in memory. */
  ghost predicate Ring(m: Memory, ring: seq<nat>) {
    Closed(m, ring) && forall a | a in m :: a in ring
  }

  /** What relink does, seen from the two lines it ties together. */
  function Tie(m: Memory, a: nat, b: nat): Memory
    requires a in m && b in m
  {
    var m1 := m[b := m[b].(prev := a)];
    m1[a := m1[a].(next := b)]
  }

  lemma TieMade(m: Memory, a: nat, b: nat)
    requires a in m && b in m
    ensures Linked(Tie(m, a, b), a, b) && Tie(m, a, b).Keys == m.Keys
    ensures forall c | c in m :: Tie(m, a, b)[c].text == m[c].text
  {
  }

  /** The k-th link of s neither starts at a nor ends at b. */
  predicate Misses(s: seq<nat>, k: nat, a: nat, b: nat) { k + 1 < |s| && s[k] != a && s[k + 1] != b }

  /** Links that start and end elsewhere are kept. */
  lemma TieKeeps(m: Memory, a: nat, b: nat, s: seq<nat>)
    requires a in m && b in m && Chain(m, s)
    requires forall k | 0 <= k < |s| - 1 :: Misses(s, k, a, b)
    ensures Chain(Tie(m, a, b), s)
  {
    forall k | 0 <= k < |s| - 1 ensures Linked(Tie(m, a, b), s[k], s[k + 1]) {
      assert Linked(m, s[k], s[k + 1]) && Misses(s, k, a, b);
    }
  }

  lemma ChainPart(m: Memory, s: seq<nat>, i: nat, j: nat)
    requires Chain(m, s) && i <= j <= |s|
    ensures Chain(m, s[i..j])
  {
    forall k | 0 <= k < |s[i..j]| - 1
      ensures Linked(m, s[i..j][k], s[i..j][k + 1])
    {
      assert Linked(m, s[i + k], s[i + k + 1]);
    }
  }

  lemma ChainJoin(m: Memory, a: seq<nat>, b: seq<nat>)
    requires Chain(m, a) && Chain(m, b) && a != [] && b != [] && Linked(m, a[|a| - 1], b[0])
    ensures Chain(m, a + b)
  {
    var s := a + b;
    forall k | 0 <= k < |s| - 1 ensures Linked(m, s[k], s[k + 1]) {
      if k < |a| - 1 {
        assert Linked(m, a[k], a[k + 1]);
      } else if k >= |a| {
        assert Linked(m, b[k - |a|], b[k - |a| + 1]);
      }
    }
  }

  /** Chains depend only on the lines they link. */
  lemma ChainFrame(m: Memory, m': Memory, s: seq<nat>)
    requires Chain(m, s) && forall a | a in s && a in m :: a in m' && m'[a] == m[a]
    ensures Chain(m', s)
  {
    forall k | 0 <= k < |s| - 1
      ensures Linked(m', s[k], s[k + 1])
    {
      assert Linked(m, s[k], s[k + 1]) && s[k] in s && s[k + 1] in s;
    }
  }

  function Texts(m: Memory, s: seq<nat>): (r: seq<string>)
    requires forall k | 0 <= k < |s| :: s[k] in m
    ensures |r| == |s| && forall k | 0 <= k < |s| :: r[k] == m[s[k]].text
  {
    seq(|s|, k requires 0 <= k < |s| => m[s[k]].text)
  }

  /** Elements of a sequence without repetitions, taken apart, are different. */
  lemma DistinctParts(s: seq<nat>, i: nat, j: nat)
    requires Distinct(s) && i <= j <= |s|
    ensures Distinct(s[..i]) && Distinct(s[i..j]) && Distinct(s[j..]) && Distinct(s[..i] + s[j..])
    ensures forall x | x in s[i..j] :: x !in s[..i] + s[j..]
    ensures forall x :: x in s <==> x in s[i..j] || x in s[..i] + s[j..]
  {
    assert s == s[..i] + s[i..j] + s[j..];
  }

  lemma DistinctInsert(s: seq<nat>, i: nat, b: seq<nat>)
    requires Distinct(s) && Distinct(b) && i <= |s| && forall x | x in b :: x !in s
    ensures Distinct(s[..i] + b + s[i..]) && forall x :: x in s[..i] + b + s[i..] <==> x in s || x in b
  {
    assert s == s[..i] + s[i..];
    var r := s[..i] + b + s[i..];
    forall p, q | 0 <= p < q < |r| ensures r[p] != r[q] {
      if p < i <= q < i + |b| { assert r[q] in b && r[p] in s; }
      if i <= p < i + |b| <= q { assert r[p] in b && r[q] in s; }
    }
  }

  /** Lines i to j - 1 are cut out of the ring: it closes, and the block stays linked. */
  lemma CutOk(m: Memory, ring: seq<nat>, i: nat, j: nat)
    requires Closed(m, ring) && 0 < i <= j <= |ring|
    ensures var a, b := ring[i - 1], (ring + [0])[j];
            && a in m && b in m
            && Closed(Tie(m, a, b), ring[..i] + ring[j..]) && Chain(Tie(m, a, b), ring[i..j])
  {
    var c := ring + [0];
    var a, b := ring[i - 1], c[j];
    assert a in ring && b in ring;
    var p, s, mid := c[..i], c[j..], c[i..j];
    ChainPart(m, c, 0, i);
    ChainPart(m, c, j, |c|);
    ChainPart(m, c, i, j);
    assert p == c[0..i] && s == c[j..|c|] && mid == ring[i..j];
    TieMade(m, a, b);
    TieKeeps(m, a, b, p);
    TieKeeps(m, a, b, s);
    TieKeeps(m, a, b, mid);
    ChainJoin(Tie(m, a, b), p, s);
    assert p + s == ring[..i] + ring[j..] + [0];
    DistinctParts(ring, i, j);
  }

  /** A linked block goes into the ring after line n - 1. */
  lemma PasteOk(m: Memory, ring: seq<nat>, n: nat, block: seq<nat>)
    requires Closed(m, ring) && 0 < n <= |ring|
    requires block != [] && Chain(m, block) && Distinct(block) && forall x | x in block :: x !in ring && x in m
    ensures var a, b := ring[n - 1], (ring + [0])[n]; var first, last := block[0], block[|block| - 1];
            && a in m && b in m && first in m && last in m
            && Closed(Tie(Tie(m, a, first), last, b), ring[..n] + block + ring[n..])
  {
    var c := ring + [0];
    var a, b, first, last := ring[n - 1], c[n], block[0], block[|block| - 1];
    assert a in ring && b in ring && first in block && last in block;
    var p, s := c[..n], c[n..];
    ChainPart(m, c, 0, n);
    ChainPart(m, c, n, |c|);
    assert p == c[0..n] && s == c[n..|c|];
    var m1 := Tie(m, a, first);
    TieMade(m, a, first);
    var m2 := Tie(m1, last, b);
    TieMade(m1, last, b);
    PasteKeeps(m, ring, n, block, p);
    PasteKeeps(m, ring, n, block, s);
    PasteKeeps(m, ring, n, block, block);
    assert Linked(m2, a, first);
    ChainJoin(m2, p, block);
    ChainJoin(m2, p + block, s);
    assert p + block + s == ring[..n] + block + ring[n..] + [0];
    DistinctInsert(ring, n, block);
  }

  lemma PasteKeeps(m: Memory, ring: seq<nat>, n: nat, block: seq<nat>, t: seq<nat>)
    requires |ring| > 0 && ring[0] == 0 && Distinct(ring) && 0 < n <= |ring|
    requires block != [] && Distinct(block) && (forall x | x in block :: x !in ring)
    requires (forall a | a in ring :: a in m) && (forall a | a in block :: a in m)
    requires Chain(m, t) && (t == (ring + [0])[..n] || t == (ring + [0])[n..] || t == block)
    ensures var a, b := ring[n - 1], (ring + [0])[n]; var first, last := block[0], block[|block| - 1];
            && a in m && b in m && first in m && last in m && Chain(Tie(Tie(m, a, first), last, b), t)
  {
    var c := ring + [0];
    var a, b, first, last := ring[n - 1], c[n], block[0], block[|block| - 1];
    assert a in ring && b in ring && first in block && last in block;
    forall k | 0 <= k < |t| - 1 ensures Misses(t, k, a, first) && Misses(t, k, last, b) {
      if t == block {
        assert t[k] in block && t[k + 1] in block;
      } else {
        assert t[k] in ring && t[k + 1] in ring;
      }
    }
    TieKeeps(m, a, first, t);
    TieMade(m, a, first);
    TieKeeps(Tie(m, a, first), last, b, t);
  }
}
