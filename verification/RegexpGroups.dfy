/** What the positions of groups mean (src/regexp.c): whenever a group has a position, that
    stretch of the text is a match of the group's own alternatives.

    Only the last time around a star counts, for the start and for the end of a group. */
module RegexpGroups {
  import opened RegexpSyntax
  import opened RegexpMeaning
  import opened RegexpShow

  // ---- the group of a number --------------------------------------------------------------

  /** The alternatives of the group n. */
  function AtomGroup(a: Atom, n: nat): Option<Alts> {
    if !a.Group? then None else if a.n == n then Some(a.alts) else GroupOf(a.alts, n)
  }

  function BranchGroup(b: Branch, n: nat): Option<Alts> {
    if b.Nil? then None
    else if AtomGroup(b.head.atom, n).Some? then AtomGroup(b.head.atom, n)
    else BranchGroup(b.tail, n)
  }

  function GroupOf(a: Alts, n: nat): Option<Alts> {
    match a
    case Last(b) => BranchGroup(b, n)
    case More(b, rest) => if BranchGroup(b, n).Some? then BranchGroup(b, n) else GroupOf(rest, n)
  }

  /** Whatever has the number n is the group g, and does not contain itself. */
  predicate AtomHas(a: Atom, n: nat, g: Option<Alts>) {
    a.Group? ==> if a.n == n then g == Some(a.alts) && AltsHas(a.alts, n, None) else AltsHas(a.alts, n, g)
  }

  predicate BranchHas(b: Branch, n: nat, g: Option<Alts>) {
    b.Cons? ==> AtomHas(b.head.atom, n, g) && BranchHas(b.tail, n, g)
  }

  predicate AltsHas(a: Alts, n: nat, g: Option<Alts>) {
    match a
    case Last(b) => BranchHas(b, n, g)
    case More(b, rest) => BranchHas(b, n, g) && AltsHas(rest, n, g)
  }

  /** A tree numbered from m on up to e has every number in between once. */
  ghost predicate Numbers(m: nat, e: nat, n: nat, found: Option<Alts>) { m <= e && (found.Some? ==> m <= n < e) }

  lemma {:induction false} AtomNumbers(a: Atom, m: nat, n: nat)
    requires NormalAtom(a, m)
    ensures Numbers(m, AtomNext(a, m), n, AtomGroup(a, n)) && AtomHas(a, n, AtomGroup(a, n))
    ensures AtomGroup(a, n).None? ==> forall g :: AtomHas(a, n, g)
    decreases a
  {
    if a.Group? { AltsNumbers(a.alts, m + 1, n); }
  }

  lemma {:induction false} BranchNumbers(b: Branch, m: nat, n: nat)
    requires NormalBranch(b, m)
    ensures Numbers(m, BranchNext(b, m), n, BranchGroup(b, n)) && BranchHas(b, n, BranchGroup(b, n))
    ensures BranchGroup(b, n).None? ==> forall g :: BranchHas(b, n, g)
    decreases b
  {
    hide AtomHas, NormalAtom, AtomGroup, AtomNext;
    if b.Cons? {
      AtomNumbers(b.head.atom, m, n);
      BranchNumbers(b.tail, AtomNext(b.head.atom, m), n);
    }
  }

  lemma {:induction false} AltsNumbers(a: Alts, m: nat, n: nat)
    requires NormalAlts(a, m)
    ensures Numbers(m, AltsNext(a, m), n, GroupOf(a, n)) && AltsHas(a, n, GroupOf(a, n))
    ensures GroupOf(a, n).None? ==> forall g :: AltsHas(a, n, g)
    decreases a
  {
    hide BranchHas, NormalBranch, BranchGroup, BranchNext;
    match a
    case Last(b) => BranchNumbers(b, m, n);
    case More(b, rest) =>
      BranchNumbers(b, m, n);
      AltsNumbers(rest, BranchNext(b, m), n);
  }

  // ---- continuations ----------------------------------------------------------------------

  /** Is the group n open? */
  predicate Open(k: Cont, n: nat) {
    match k
    case Done => false
    case Then(_, nx) => Open(nx, n)
    case Skip(nx) => Open(nx, n)
    case Choice(_, nx) => Open(nx, n)
    case Leave(nx) => Open(nx, n)
    case Close(m, nx) => m == n || Open(nx, n)
    case Again(_, _, nx) => Open(nx, n)
  }

  /** What remains of the group n. */
  function Upto(k: Cont, n: nat): Cont {
    match k
    case Done => Done
    case Then(b, nx) => Then(b, Upto(nx, n))
    case Skip(nx) => Skip(Upto(nx, n))
    case Choice(alts, nx) => Choice(alts, Upto(nx, n))
    case Leave(nx) => Leave(Upto(nx, n))
    case Close(m, nx) => if m == n then Done else Close(m, Upto(nx, n))
    case Again(x, from, nx) => Again(x, from, Upto(nx, n))
  }

  /** Which group n may begin before k: none inside itself. */
  function Before(k: Cont, n: nat, g: Option<Alts>): Option<Alts> { if Open(k, n) then None else g }

  predicate ContHas(k: Cont, n: nat, g: Option<Alts>) {
    match k
    case Done => true
    case Then(b, nx) => BranchHas(b, n, Before(nx, n, g)) && ContHas(nx, n, g)
    case Skip(nx) => ContHas(nx, n, g)
    case Choice(alts, nx) => AltsHas(alts, n, Before(nx, n, g)) && ContHas(nx, n, g)
    case Leave(nx) => ContHas(nx, n, g)
    case Close(m, nx) => (m == n ==> !Open(nx, n)) && ContHas(nx, n, g)
    case Again(x, _, nx) => AtomHas(x, n, Before(nx, n, g)) && ContHas(nx, n, g)
  }

  // ---- what a hit says of the group n -----------------------------------------------------

  function EndOf(h: Hit, n: nat): nat { if n < |h.ends| && h.ends[n] >= 0 then h.ends[n] else 0 }

  /** What remains of the group n matches up to where the hit says. */
  ghost predicate Remains(h: Hit, k: Cont, n: nat, s: seq<Chr>, i: nat) { ContMatches(Upto(k, n), s, i, EndOf(h, n)) }

  /** Either the group n is matched from here on, the last time where the hit says; or it
      was open and has been closed where the hit says; or it has no end. */
  ghost predicate Caught(h: Hit, k: Cont, n: nat, g: Option<Alts>, s: seq<Chr>, i: nat) {
    && |h.starts| == |h.ends| == NSUBEXP && n < NSUBEXP && i <= h.end <= |s|
    && if h.starts[n] != -1 then
         && i <= h.starts[n] <= h.ends[n] <= h.end
         && g.Some? && AltsMatch(g.value, s, h.starts[n], h.ends[n])
       else if Open(k, n) then i <= h.ends[n] <= h.end && Remains(h, k, n, s, i)
       else h.ends[n] == -1
  }

  lemma Carried(h: Hit, k': Cont, i': nat, k: Cont, n: nat, g: Option<Alts>, s: seq<Chr>, i: nat)
    requires Caught(h, k', n, g, s, i') && i <= i' && Open(k', n) == Open(k, n)
    requires Remains(h, k', n, s, i') ==> Remains(h, k, n, s, i)
    ensures Caught(h, k, n, g, s, i)
  {
    hide Remains, AltsMatch;
  }

  lemma {:induction false} FirstCaught(k: Cont, n: nat, g: Option<Alts>, s: seq<Chr>, i: nat)
    requires i <= |s| && n < NSUBEXP && ContHas(k, n, g) && First(k, s, i).Some?
    ensures Caught(First(k, s, i).value, k, n, g, s, i)
    decreases |s| - i, Weight(k, i), 0
  {
    hide ContMatches, AltsMatch, AltsHas, Advance, Repeat, Caught;
    var h := First(k, s, i).value;
    match k
    case Done => DoneCaught(n, g, s, i);
    case Skip(nx) =>
      FirstCaught(nx, n, g, s, i);
      SameMatch(h, nx, n, s, i);
      Carried(h, nx, i, k, n, g, s, i);
    case Leave(nx) =>
      FirstCaught(nx, n, g, s, i);
      SameMatch(h, nx, n, s, i);
      Carried(h, nx, i, k, n, g, s, i);
    case Close(m, nx) =>
      FirstCaught(nx, n, g, s, i);
      CloseCaught(First(nx, s, i).value, m, nx, n, g, s, i);
    case Again(x, from, nx) =>
      WeightAgain(x, from, nx, i);
      var k' := Then(Cons(Piece(x, true), Nil), nx);
      ThenHas(Piece(x, true), Nil, nx, n, g);
      FirstCaught(k', n, g, s, i);
      if Remains(h, k', n, s, i) { AgainIntro(x, from, Upto(nx, n), s, i, EndOf(h, n)); }
      Carried(h, k', i, k, n, g, s, i);
    case Choice(alts, nx) => ChoiceCaught(alts, nx, n, g, s, i);
    case Then(Nil, nx) =>
      FirstCaught(nx, n, g, s, i);
      if Remains(h, nx, n, s, i) { NilIntro(Upto(nx, n), s, i, EndOf(h, n)); }
      Carried(h, nx, i, k, n, g, s, i);
    case Then(Cons(Piece(a, false), rest), nx) =>
      WeightThen(Piece(a, false), rest, nx, i);
      AtomCaught(a, rest, nx, n, g, s, i);
    case Then(Cons(Piece(x, true), rest), nx) =>
      WeightThen(Piece(x, true), rest, nx, i);
      StarCaught(x, rest, nx, n, g, s, i);
  }

  lemma DoneCaught(n: nat, g: Option<Alts>, s: seq<Chr>, i: nat)
    requires i <= |s| && n < NSUBEXP
    ensures Caught(Hit(i, NOWHERE, NOWHERE), Done, n, g, s, i)
  {
  }

  lemma SameMatch(h: Hit, nx: Cont, n: nat, s: seq<Chr>, i: nat)
    ensures Remains(h, nx, n, s, i) ==> Remains(h, Skip(nx), n, s, i) && Remains(h, Leave(nx), n, s, i)
    ensures forall m | m != n :: Remains(h, nx, n, s, i) ==> Remains(h, Close(m, nx), n, s, i)
  {
  }

  lemma CloseCaught(h: Hit, m: nat, nx: Cont, n: nat, g: Option<Alts>, s: seq<Chr>, i: nat)
    requires Caught(h, nx, n, g, s, i) && (m == n ==> !Open(nx, n)) && i <= |s|
    ensures Caught(Hit(h.end, h.starts, Mark(h.ends, m, i)), Close(m, nx), n, g, s, i)
  {
    hide AltsMatch;
    SameMatch(h, nx, n, s, i);
    assert ContMatches(Done, s, i, i);
  }

  lemma {:induction false} ChoiceCaught(alts: Alts, nx: Cont, n: nat, g: Option<Alts>, s: seq<Chr>, i: nat)
    requires i <= |s| && n < NSUBEXP && ContHas(Choice(alts, nx), n, g) && First(Choice(alts, nx), s, i).Some?
    ensures Caught(First(Choice(alts, nx), s, i).value, Choice(alts, nx), n, g, s, i)
    decreases |s| - i, Weight(Choice(alts, nx), i) - 1, 1
  {
    hide ContMatches, AltsMatch, BranchHas, Caught;
    var k := Choice(alts, nx);
    var h := First(k, s, i).value;
    match alts
    case Last(b) =>
      FirstCaught(Then(b, nx), n, g, s, i);
      if Remains(h, Then(b, nx), n, s, i) { LastIntro(b, Upto(nx, n), s, i, EndOf(h, n)); }
      Carried(h, Then(b, nx), i, k, n, g, s, i);
    case More(b, rest) =>
      var k' := if First(Then(b, nx), s, i).Some? then Then(b, nx) else Choice(rest, nx);
      FirstCaught(k', n, g, s, i);
      if Remains(h, k', n, s, i) { MoreIntro(b, rest, Upto(nx, n), s, i, EndOf(h, n)); }
      Carried(h, k', i, k, n, g, s, i);
  }

  lemma {:induction false} AtomCaught(a: Atom, rest: Branch, nx: Cont, n: nat, g: Option<Alts>, s: seq<Chr>, i: nat)
    requires i <= |s| && n < NSUBEXP && ContHas(Then(Cons(Piece(a, false), rest), nx), n, g)
    requires First(Then(Cons(Piece(a, false), rest), nx), s, i).Some?
    ensures var k := Then(Cons(Piece(a, false), rest), nx); Caught(First(k, s, i).value, k, n, g, s, i)
    decreases |s| - i, Weight(Then(Cons(Piece(a, false), rest), nx), i) - 1, 1
  {
    hide ContMatches, AltsMatch, Caught, AltsHas;
    var k := Then(Cons(Piece(a, false), rest), nx);
    var h := First(k, s, i).value;
    WeightThen(Piece(a, false), rest, nx, i);
    if a.Group? {
      var c := Choice(a.alts, Close(a.n, Then(rest, nx)));
      InGroup(a, rest, nx, n, g);
      FirstCaught(c, n, g, s, i);
      GroupCaught(First(c, s, i).value, a, rest, nx, n, g, s, i);
    } else {
      var i' := Advance(a, s, i).value;
      FirstCaught(Then(rest, nx), n, g, s, i');
      if Remains(h, Then(rest, nx), n, s, i') { AdvanceIntro(a, rest, Upto(nx, n), s, i, i', EndOf(h, n)); }
      Carried(h, Then(rest, nx), i', k, n, g, s, i);
    }
  }

  lemma ThenShape(b: Branch, nx: Cont, n: nat)
    ensures Upto(Then(b, nx), n) == Then(b, Upto(nx, n)) && Open(Then(b, nx), n) == Open(nx, n)
  {
  }

  lemma ThenHas(p: Piece, rest: Branch, nx: Cont, n: nat, g: Option<Alts>)
    ensures ContHas(Then(Cons(p, rest), nx), n, g) <==>
              AtomHas(p.atom, n, Before(nx, n, g)) && ContHas(Then(rest, nx), n, g)
    ensures ContHas(Then(Cons(p, Nil), nx), n, g) <==> AtomHas(p.atom, n, Before(nx, n, g)) && ContHas(nx, n, g)
  {
    hide AtomHas, Open;
    assert BranchHas(Cons(p, rest), n, Before(nx, n, g)) <==>
             AtomHas(p.atom, n, Before(nx, n, g)) && BranchHas(rest, n, Before(nx, n, g));
    assert BranchHas(Cons(p, Nil), n, Before(nx, n, g)) <==> AtomHas(p.atom, n, Before(nx, n, g));
  }

  lemma InGroup(a: Atom, rest: Branch, nx: Cont, n: nat, g: Option<Alts>)
    requires a.Group?
    ensures var k := Then(rest, nx); var c := Choice(a.alts, Close(a.n, k));
            && Upto(c, n) == Choice(a.alts, if a.n == n then Done else Close(a.n, Then(rest, Upto(nx, n))))
            && (Open(c, n) <==> a.n == n || Open(nx, n))
            && (ContHas(Then(Cons(Piece(a, false), rest), nx), n, g) ==>
                  ContHas(c, n, g) && (a.n == n ==> !Open(nx, n) && g == Some(a.alts)))
  {
    hide AltsHas;
    var k := Then(rest, nx);
    ThenHas(Piece(a, false), rest, nx, n, g);
    assert Open(Close(a.n, k), n) <==> a.n == n || Open(nx, n);
    assert ContHas(Close(a.n, k), n, g) <==> (a.n == n ==> !Open(k, n)) && ContHas(k, n, g);
    assert Upto(Close(a.n, k), n) == if a.n == n then Done else Close(a.n, Then(rest, Upto(nx, n)));
  }

  lemma OnceAround(x: Atom, from: nat, rest: Branch, nx: Cont, n: nat, g: Option<Alts>)
    ensures var once := Then(Cons(Piece(x, false), Nil), Again(x, from, Then(rest, nx)));
            && Upto(once, n) == Then(Cons(Piece(x, false), Nil), Again(x, from, Then(rest, Upto(nx, n))))
            && Open(once, n) == Open(nx, n)
            && (ContHas(Then(Cons(Piece(x, true), rest), nx), n, g) ==>
                  ContHas(once, n, g) && ContHas(Then(rest, nx), n, g))
  {
    hide AtomHas;
    var again := Again(x, from, Then(rest, nx));
    assert Upto(again, n) == Again(x, from, Then(rest, Upto(nx, n)));
    assert Open(again, n) == Open(Then(rest, nx), n) == Open(nx, n);
    ThenHas(Piece(x, true), rest, nx, n, g);
    ThenHas(Piece(x, false), Nil, again, n, g);
    assert ContHas(again, n, g) <==> AtomHas(x, n, Before(Then(rest, nx), n, g)) && ContHas(Then(rest, nx), n, g);
  }

  /** The start of the group n is noted last, unless it has begun again later. */
  lemma GroupCaught(h: Hit, a: Atom, rest: Branch, nx: Cont, n: nat, g: Option<Alts>, s: seq<Chr>, i: nat)
    requires a.Group? && i <= |s| && ContHas(Then(Cons(Piece(a, false), rest), nx), n, g)
    requires Caught(h, Choice(a.alts, Close(a.n, Then(rest, nx))), n, g, s, i)
    ensures Caught(Hit(h.end, Mark(h.starts, a.n, i), h.ends), Then(Cons(Piece(a, false), rest), nx), n, g, s, i)
  {
    hide AltsMatch, AltsHas, ContMatches, Upto, Open, ContHas;
    InGroup(a, rest, nx, n, g);
    ThenShape(Cons(Piece(a, false), rest), nx, n);
    var c := Choice(a.alts, Close(a.n, Then(rest, nx)));
    if Remains(h, c, n, s, i) {
      if a.n == n {
        ClosedMatch(a.alts, s, i, EndOf(h, n));
      } else {
        GroupIntro(a, rest, Upto(nx, n), s, i, EndOf(h, n));
      }
    }
  }

  lemma ClosedMatch(a: Alts, s: seq<Chr>, i: nat, j: nat)
    requires ContMatches(Choice(a, Done), s, i, j)
    ensures AltsMatch(a, s, i, j)
  {
  }

  lemma {:induction false} StarCaught(x: Atom, rest: Branch, nx: Cont, n: nat, g: Option<Alts>, s: seq<Chr>, i: nat)
    requires i <= |s| && n < NSUBEXP && ContHas(Then(Cons(Piece(x, true), rest), nx), n, g)
    requires First(Then(Cons(Piece(x, true), rest), nx), s, i).Some?
    ensures var k := Then(Cons(Piece(x, true), rest), nx); Caught(First(k, s, i).value, k, n, g, s, i)
    decreases |s| - i, Weight(Then(Cons(Piece(x, true), rest), nx), i) - 1, 2
  {
    hide ContMatches, AltsMatch, Caught, AtomHas;
    var k, k' := Then(Cons(Piece(x, true), rest), nx), Then(rest, nx);
    var h := First(k, s, i).value;
    WeightThen(Piece(x, true), rest, nx, i);
    if Simple(x) {
      var t := DownCaught(k', n, g, s, i, Repeat(x, s, i));
      if Remains(h, k', n, s, i + t) { DownIntro(x, rest, Upto(nx, n), s, i, t, EndOf(h, n)); }
      Carried(h, k', i + t, k, n, g, s, i);
    } else {
      var once := Then(Cons(Piece(x, false), Nil), Again(x, i, k'));
      OnceAround(x, i, rest, nx, n, g);
      if First(once, s, i).Some? {
        FirstCaught(once, n, g, s, i);
        if Remains(h, once, n, s, i) { OnceIntro(x, rest, Upto(nx, n), s, i, EndOf(h, n)); }
        Carried(h, once, i, k, n, g, s, i);
      } else {
        FirstCaught(k', n, g, s, i);
        if Remains(h, k', n, s, i) { LeaveIntro(x, rest, Upto(nx, n), s, i, EndOf(h, n)); }
        Carried(h, k', i, k, n, g, s, i);
      }
    }
  }

  lemma {:induction false} DownCaught(k: Cont, n: nat, g: Option<Alts>, s: seq<Chr>, i: nat, r: nat) returns (t: nat)
    requires i + r <= |s| && n < NSUBEXP && ContHas(k, n, g) && FirstDown(k, s, i, r).Some?
    ensures t <= r && Caught(FirstDown(k, s, i, r).value, k, n, g, s, i + t)
    decreases |s| - i, Weight(k, i) + 1, r
  {
    hide Caught, ContHas;
    if First(k, s, i + r).Some? {
      FirstCaught(k, n, g, s, i + r);
      t := r;
    } else {
      t := DownCaught(k, n, g, s, i, r - 1);
    }
  }

  /** The positions of every group in a match of the whole pattern. */
  lemma Captures(a: Alts, s: seq<Chr>, i: nat, n: nat)
    requires NormalAlts(a, 1) && i <= |s| && n < NSUBEXP && First(Choice(a, Done), s, i).Some?
    ensures var h := First(Choice(a, Done), s, i).value;
            && |h.starts| == |h.ends| == NSUBEXP
            && (h.starts[n] == -1 <==> h.ends[n] == -1)
            && (h.starts[n] != -1 ==>
                  && i <= h.starts[n] <= h.ends[n] <= h.end
                  && GroupOf(a, n).Some? && AltsMatch(GroupOf(a, n).value, s, h.starts[n], h.ends[n]))
  {
    hide NormalAlts, AltsHas, AltsMatch, First, GroupOf;
    AltsNumbers(a, 1, n);
    FirstCaught(Choice(a, Done), n, GroupOf(a, n), s, i);
  }
}
