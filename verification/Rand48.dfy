/** The 48-bit linear congruential generator in 16-bit limbs (src/drand48.c). */
module Rand48 {

  const B: nat := 0x1_0000
  const B32: nat := B * B
  const B48: nat := B * B * B

  /** Three limbs, the lowest first, of 16 bits each. */
  datatype Limbs = Limbs(l0: nat, l1: nat, l2: nat)

  predicate Fits(x: Limbs) { x.l0 < B && x.l1 < B && x.l2 < B }

  function Value(x: Limbs): (v: nat) { x.l0 + x.l1 * B + x.l2 * B32 }

  function Low(x: nat): nat { x % B }

  function Carry(x: nat, y: nat): nat { if x + y > B - 1 then 1 else 0 }

  lemma LowCarry(x: nat, y: nat)
    requires x < B && y < B
    ensures x + y == Low(x + y) + B * Carry(x, y) && Low(x + y) < B && Carry(x, y) < B
  {
  }

  lemma Halves(x: nat)
    ensures x == Low(x) + B * High(x) && Low(x) < B
  {
  }

  function High(x: nat): nat { x / B }

  /** Arithmetic on unsigned integers of 32 bits. */
  function Unsigned(x: nat): nat { x % B32 }

  lemma {:induction false} LowUnsigned(x: nat)
    ensures Low(Unsigned(x)) == Low(x)
  {
    var q := x / B32;
    assert x == B * (B * q) + Unsigned(x);
    ModAdd(Unsigned(x), B * q);
  }

  lemma ModAdd(x: nat, k: nat)
    ensures Low(x + B * k) == Low(x)
  {
  }

  function Times(x: nat, y: nat): nat { x * y }

  /** The product of two three-limb numbers, up to multiples of 2^48. */
  lemma Product(a: Limbs, x: Limbs) returns (k: nat)
    ensures Times(Value(a), Value(x))
         == Times(a.l0, x.l0) + B * (Times(a.l0, x.l1) + Times(a.l1, x.l0)) + B32 * Highest(x, a) + B48 * k
  {
    k := a.l1 * x.l2 + a.l2 * x.l1 + B * (a.l2 * x.l2);
    var y := Value(x);
    Distribute(a.l0, a.l1, a.l2, y);
    Distribute2(a.l0, x);
    Distribute2(a.l1, x);
    Distribute2(a.l2, x);
  }

  /** The products that only reach the highest limb. */
  function Highest(x: Limbs, a: Limbs): nat { Times(a.l0, x.l2) + Times(a.l1, x.l1) + Times(a.l2, x.l0) }

  lemma Distribute(a0: nat, a1: nat, a2: nat, y: nat)
    ensures (a0 + a1 * B + a2 * B32) * y == a0 * y + B * (a1 * y) + B32 * (a2 * y)
  {
  }

  lemma Distribute2(a: nat, x: Limbs)
    ensures a * Value(x) == a * x.l0 + B * (a * x.l1) + B32 * (a * x.l2)
  {
  }

  /** What `next` computes from the products of limbs p, q and r and the sum h of those
      that only reach the highest limb; that sum is taken modulo 2^32. */
  function Combine(p: nat, q: nat, r: nat, h: nat, c: nat): Limbs {
    var p0, carry := Low(Low(p) + c), Carry(Low(p), c);
    var p1, carry1 := Low(High(p) + carry), Carry(High(p), carry);
    var p1', carry0 := Low(p1 + Low(q)), Carry(p1, Low(q));
    Limbs(p0, Low(p1' + Low(r)), Low(Unsigned(carry0 + carry1 + Carry(p1', Low(r)) + High(q) + High(r) + h)))
  }

  function NextLimbs(x: Limbs, a: Limbs, c: nat): Limbs {
    Combine(Times(a.l0, x.l0), Times(a.l0, x.l1), Times(a.l1, x.l0), Highest(x, a), c)
  }

  lemma Mono(x: nat, a: nat, b: nat)
    requires a <= b
    ensures x * a <= x * b && a * x <= b * x
  {
  }

  lemma Small(x: nat, y: nat)
    requires x < B && y < B
    ensures High(Times(x, y)) < B
  {
    Mono(x, y, B - 1);
    Mono(B - 1, x, B - 1);
  }

  /** The carries lose nothing. */
  lemma Carries(p: nat, q: nat, r: nat, h: nat, c: nat) returns (t: nat)
    requires High(p) < B && c < B
    ensures var n := Combine(p, q, r, h, c);
            n.l0 < B && n.l1 < B && n.l2 == Low(t) && p + c + B * (q + r) + B32 * h == n.l0 + B * n.l1 + B32 * t
  {
    hide Unsigned, Low, Carry, High;
    Halves(p);
    Halves(q);
    Halves(r);
    LowCarry(Low(p), c);
    var carry := Carry(Low(p), c);
    LowCarry(High(p), carry);
    var p1 := Low(High(p) + carry);
    LowCarry(p1, Low(q));
    var p1' := Low(p1 + Low(q));
    LowCarry(p1', Low(r));
    t := Carry(p1, Low(q)) + Carry(High(p), carry) + Carry(p1', Low(r)) + High(q) + High(r) + h;
    LowUnsigned(t);
  }

  /** next() is X := (aX + c) mod 2^48. */
  lemma NextOk(x: Limbs, a: Limbs, c: nat)
    requires Fits(x) && Fits(a) && c < B
    ensures Fits(NextLimbs(x, a, c)) && Value(NextLimbs(x, a, c)) == (Times(Value(a), Value(x)) + c) % B48
  {
    hide Combine, Value, Times, Highest;
    Small(a.l0, x.l0);
    var k := Product(a, x);
    NextFrom(Times(a.l0, x.l0), Times(a.l0, x.l1), Times(a.l1, x.l0), Highest(x, a), c, k, Times(Value(a), Value(x)));
  }

  lemma NextFrom(p: nat, q: nat, r: nat, h: nat, c: nat, k: nat, v: nat)
    requires High(p) < B && c < B && v == p + B * (q + r) + B32 * h + B48 * k
    ensures Fits(Combine(p, q, r, h, c)) && Value(Combine(p, q, r, h, c)) == (v + c) % B48
  {
    hide Combine, Value, Low;
    var t := Carries(p, q, r, h, c);
    var n := Combine(p, q, r, h, c);
    Assemble(n.l0, n.l1, t, k, v + c);
  }

  lemma Assemble(l0: nat, l1: nat, t: nat, k: nat, v: nat)
    requires l0 < B && l1 < B && v == l0 + B * l1 + B32 * t + B48 * k
    ensures Low(t) < B && Value(Limbs(l0, l1, Low(t))) == v % B48
  {
    Halves(t);
    var w := Value(Limbs(l0, l1, Low(t)));
    assert v == w + B48 * (High(t) + k) && w < B48;
  }

  const A: Limbs := Limbs(0xE66D, 0xDEEC, 0x5)
  const C: nat := 0xB

  /** The parameters of the family, put together from their limbs. */
  lemma Parameters()
    ensures Value(A) == 0x5DEECE66D && C == 0xB && Fits(A)
  {
  }

  /** The generator's state, and the calls of the family.  A result is given by the 48-bit
      value it is taken from: drand48 is that value as a fraction, lrand48 its upper 31
      bits, and mrand48 its upper 32 bits with sign. */
  class Generator {
    var x: Limbs
    var a: Limbs
    var c: nat
    var lastx: Limbs

    ghost predicate Valid()
      reads this
    {
      Fits(x) && Fits(a) && c < B
    }

    constructor ()
      ensures Valid() && x == Limbs(0x330E, 0xABCD, 0x1234) && a == A && c == C
    {
      x, a, c, lastx := Limbs(0x330E, 0xABCD, 0x1234), A, C, Limbs(0, 0, 0);
    }

    method Next()
      requires Valid()
      modifies this`x
      ensures Valid() && Value(x) == (Value(a) * Value(old(x)) + c) % B48
    {
      NextOk(x, a, c);
      x := NextLimbs(x, a, c);
    }

    method Drand48() returns (r: real)
      requires Valid()
      modifies this`x
      ensures Valid() && Value(x) == (Value(a) * Value(old(x)) + c) % B48
      ensures r == Value(x) as real / B48 as real && 0.0 <= r < 1.0
    {
      Next();
      var two16m := 1.0 / B as real;
      r := two16m * (two16m * (two16m * x.l0 as real + x.l1 as real) + x.l2 as real);
      Fraction(x);
    }

    method Lrand48() returns (r: nat)
      requires Valid()
      modifies this`x
      ensures Valid() && Value(x) == (Value(a) * Value(old(x)) + c) % B48
      ensures r == Value(x) / 0x2_0000 < 0x8000_0000
    {
      Next();
      r := x.l2 * 0x8000 + x.l1 / 2;
    }

    method Mrand48() returns (r: int)
      requires Valid()
      modifies this`x
      ensures Valid() && Value(x) == (Value(a) * Value(old(x)) + c) % B48
      ensures -0x8000_0000 <= r < 0x8000_0000 && (r - Value(x) / B) % B32 == 0
    {
      Next();
      var l := x.l2 * B + x.l1;
      assert l == Value(x) / B;
      r := if l >= 0x8000_0000 then l - B32 else l;
    }

    /** seed48 returns what the state was. */
    method Seed48(seed: Limbs) returns (was: Limbs)
      requires Valid()
      modifies this
      ensures Valid() && was == old(x) && Value(x) == Value(Limbs(Low(seed.l0), Low(seed.l1), Low(seed.l2))) && a == A
                && c == C
    {
      LowOf(x);
      lastx := Limbs(Low(x.l0), Low(x.l1), Low(x.l2));
      x, a, c := Limbs(Low(seed.l0), Low(seed.l1), Low(seed.l2)), A, C;
      was := lastx;
    }

    /** The calls with the caller's own seed: the generator's stream is untouched, and the
        outcome depends on the seed and the parameters alone. */
    method Erand48(xsubi: Limbs) returns (r: real, next: Limbs)
      requires Valid() && Fits(xsubi)
      modifies this`x
      ensures Valid() && x == old(x) && Fits(next) && Value(next) == (Value(a) * Value(xsubi) + c) % B48
      ensures r == Value(next) as real / B48 as real
    {
      LowOf(xsubi);
      var temp := x;
      x := Limbs(Low(xsubi.l0), Low(xsubi.l1), Low(xsubi.l2));
      r := Drand48();
      next, x := x, temp;
    }

    method Nrand48(xsubi: Limbs) returns (r: nat, next: Limbs)
      requires Valid() && Fits(xsubi)
      modifies this`x
      ensures Valid() && x == old(x) && Fits(next) && Value(next) == (Value(a) * Value(xsubi) + c) % B48
      ensures r == Value(next) / 0x2_0000
    {
      LowOf(xsubi);
      var temp := x;
      x := Limbs(Low(xsubi.l0), Low(xsubi.l1), Low(xsubi.l2));
      r := Lrand48();
      next, x := x, temp;
    }

    method Jrand48(xsubi: Limbs) returns (r: int, next: Limbs)
      requires Valid() && Fits(xsubi)
      modifies this`x
      ensures Valid() && x == old(x) && Fits(next) && Value(next) == (Value(a) * Value(xsubi) + c) % B48
      ensures -0x8000_0000 <= r < 0x8000_0000 && (r - Value(next) / B) % B32 == 0
    {
      LowOf(xsubi);
      var temp := x;
      x := Limbs(Low(xsubi.l0), Low(xsubi.l1), Low(xsubi.l2));
      r := Mrand48();
      next, x := x, temp;
    }
  }

  lemma LowOf(x: Limbs)
    requires Fits(x)
    ensures Limbs(Low(x.l0), Low(x.l1), Low(x.l2)) == x
  {
  }

  lemma Fraction(x: Limbs)
    requires Fits(x)
    ensures var m := 1.0 / B as real;
            m * (m * (m * x.l0 as real + x.l1 as real) + x.l2 as real) == Value(x) as real / B48 as real
    ensures 0.0 <= Value(x) as real / B48 as real < 1.0
  {
    assert Value(x) < B48;
    assert Value(x) as real == x.l0 as real + x.l1 as real * B as real + x.l2 as real * B32 as real;
  }

  // ---- streams ------------------------------------------------------------------------------

  /** The n-th value after X. */
  function Stream(a: nat, c: nat, x: nat, n: nat): nat {
    if n == 0 then x else (Times(a, Stream(a, c, x, n - 1)) + c) % B48
  }

  /** Calls on the generator itself, and calls with a caller's own seed. */
  datatype Call = Drand | Lrand | Mrand | Erand(seed: Limbs) | Nrand(seed: Limbs) | Jrand(seed: Limbs)

  predicate IsOwn(call: Call) { call.Drand? || call.Lrand? || call.Mrand? }

  function Owns(calls: seq<Call>): nat {
    if calls == [] then 0 else Owns(calls[..|calls| - 1]) + if IsOwn(calls[|calls| - 1]) then 1 else 0
  }

  lemma OwnsNext(calls: seq<Call>, i: nat)
    requires i < |calls|
    ensures Owns(calls[..i + 1]) == Owns(calls[..i]) + if IsOwn(calls[i]) then 1 else 0
  {
    assert calls[..i + 1][..i] == calls[..i];
  }

  /** Any calls on a generator: its state is as many steps on as there were calls of its
      own, whatever calls with other seeds came in between. */
  method RunCalls(g: Generator, calls: seq<Call>)
    requires g.Valid() && forall i | 0 <= i < |calls| && !IsOwn(calls[i]) :: Fits(calls[i].seed)
    modifies g`x
    ensures g.Valid() && Value(g.x) == Stream(Value(g.a), g.c, Value(old(g.x)), Owns(calls))
  {
    hide Fits, Value, Owns, Stream;
    ghost var x0 := Value(g.x);
    StreamStart(Value(g.a), g.c, x0);
    var i := 0;
    while i < |calls|
      invariant i <= |calls| && g.Valid() && Value(g.x) == Stream(Value(g.a), g.c, x0, Owns(calls[..i]))
    {
      OwnsNext(calls, i);
      StreamNext(Value(g.a), g.c, x0, Owns(calls[..i]));
      RunCall(g, calls[i]);
      i := i + 1;
    }
    assert calls[..i] == calls;
  }

  method RunCall(g: Generator, call: Call)
    requires g.Valid() && (!IsOwn(call) ==> Fits(call.seed))
    modifies g`x
    ensures g.Valid()
    ensures Value(g.x) == if IsOwn(call) then (Times(Value(g.a), Value(old(g.x))) + g.c) % B48 else Value(old(g.x))
  {
    hide Value;
    match call
    case Drand => var r := g.Drand48();
    case Lrand => var r := g.Lrand48();
    case Mrand => var r := g.Mrand48();
    case Erand(seed) => var r, next := g.Erand48(seed);
    case Nrand(seed) => var r, next := g.Nrand48(seed);
    case Jrand(seed) => var r, next := g.Jrand48(seed);
  }

  lemma StreamStart(a: nat, c: nat, x: nat)
    ensures Stream(a, c, x, 0) == x && Owns([]) == 0
  {
  }

  lemma StreamNext(a: nat, c: nat, x: nat, n: nat)
    ensures Stream(a, c, x, n + 1) == (Times(a, Stream(a, c, x, n)) + c) % B48
  {
  }
}
