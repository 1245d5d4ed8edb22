/** The backtracking matcher of src/regexp.c, on bytecode.

    Every address the matcher visits stands for something that remains to be matched;
    `At` ties the two together, and the matcher is proved to compute `First` of it.
 */
module RegexpMatch {
  import opened RegexpSyntax
  import opened RegexpCode
  import opened RegexpMeaning

  // ---- addresses as continuations -----------------------------------------

  /** The distance from pc to what follows the pieces b, read off their tail node. */
  ghost function Dist(prog: seq<Byte>, pc: nat, b: Branch): nat
    requires b.Cons?
  {
    if pc + PiecesTail(b) + 3 <= |prog| then PiecesTail(b) + NextOff(prog, pc + PiecesTail(b)) else 0
  }

  /** The pieces b stand at pc, linked to distance d. */
  ghost predicate LinkedAt(prog: seq<Byte>, pc: nat, b: Branch, d: nat)
    requires b.Cons?
  {
    d >= PiecesSize(b) && CodeAt(prog, pc, PiecesCode(b, d)) && Dist(prog, pc, b) == d
  }

  /** The bytecode at pc is what remains to be matched, k. */
  ghost predicate At(prog: seq<Byte>, pc: nat, k: Cont)
    ensures At(prog, pc, k) ==> pc + 3 <= |prog|
    decreases k
  {
    && pc + 3 <= |prog|
    && match k
       case Done => NodeAt(prog, pc, END, 0)
       case Skip(nx) =>
         prog[pc] == NOTHING && NextOff(prog, pc) > 0 && At(prog, pc + NextOff(prog, pc), nx)
       case Leave(nx) =>
         && NodeAt(prog, pc, BRANCH, 3) && pc + 6 <= |prog|
         && prog[pc + 3] == NOTHING && NextOff(prog, pc + 3) > 0 && At(prog, pc + 3 + NextOff(prog, pc + 3), nx)
       case Close(n, nx) =>
         prog[pc] == CloseOp(n) && NextOff(prog, pc) > 0 && At(prog, pc + NextOff(prog, pc), nx)
       case Choice(alts, nx) =>
         && (nx.Close? || nx.Done?)
         && CodeAt(prog, pc, AltsCode(alts, AltsSize(alts)))
         && At(prog, pc + AltsSize(alts), nx)
       case Then(b, nx) =>
         if b.Nil? then At(prog, pc, nx)
         else LinkedAt(prog, pc, b, Dist(prog, pc, b)) && At(prog, pc + Dist(prog, pc, b), nx)
       case Again(x, _, nx) =>
         var n := AtomSize(x);
         && pc >= n + 3 && pc + 9 <= |prog|
         && var d := n + 9 + NextOff(prog, pc + 6);
         && d >= n + 12
         && CodeAt(prog, pc - n - 3, PieceCode(Piece(x, true), d)) && At(prog, pc - n - 3 + d, nx)
  }

  /** Groups are numbered within NSUBEXP, and every pending loop either still has an
      operand ahead that must consume something (w) or has consumed already. */
  ghost predicate Live(k: Cont, i: nat, w: bool) {
    match k
    case Done => true
    case Skip(nx) => Live(nx, i, w)
    case Leave(nx) => Live(nx, i, w)
    case Close(n, nx) => 1 <= n < NSUBEXP && Live(nx, i, w)
    case Choice(alts, nx) => GoodAlts(alts) && Live(nx, i, w || AltsWidth(alts))
    case Then(b, nx) => GoodBranch(b) && Live(nx, i, w || BranchWidth(b))
    case Again(x, from, nx) =>
      GoodAtom(x) && AtomWidth(x) && !Simple(x) && from <= i && (w || from < i) && Live(nx, i, w)
  }

  lemma {:induction false} LiveMore(k: Cont, i: nat, w: bool, w': bool)
    requires Live(k, i, w) && (w ==> w')
    ensures Live(k, i, w')
  {
    match k
    case Done =>
    case Skip(nx) => LiveMore(nx, i, w, w');
    case Leave(nx) => LiveMore(nx, i, w, w');
    case Close(n, nx) => LiveMore(nx, i, w, w');
    case Choice(alts, nx) => LiveMore(nx, i, w || AltsWidth(alts), w' || AltsWidth(alts));
    case Then(b, nx) => LiveMore(nx, i, w || BranchWidth(b), w' || BranchWidth(b));
    case Again(x, from, nx) => LiveMore(nx, i, w, w');
  }

  /** Consuming a character satisfies every pending loop. */
  lemma {:induction false} LiveAfter(k: Cont, i: nat, w: bool, i': nat)
    requires Live(k, i, w) && i < i'
    ensures Live(k, i', false)
  {
    match k
    case Done =>
    case Skip(nx) => LiveAfter(nx, i, w, i');
    case Leave(nx) => LiveAfter(nx, i, w, i');
    case Close(n, nx) => LiveAfter(nx, i, w, i');
    case Choice(alts, nx) =>
      LiveAfter(nx, i, w || AltsWidth(alts), i');
      LiveMore(nx, i', false, AltsWidth(alts));
    case Then(b, nx) =>
      LiveAfter(nx, i, w || BranchWidth(b), i');
      LiveMore(nx, i', false, BranchWidth(b));
    case Again(x, from, nx) => LiveAfter(nx, i, w, i');
  }

  lemma ThenAt(prog: seq<Byte>, pc: nat, b: Branch, nx: Cont, d: nat)
    requires b.Cons? && LinkedAt(prog, pc, b, d) && At(prog, pc + d, nx)
    ensures At(prog, pc, Then(b, nx))
  {
    hide PiecesSize, PiecesCode, PiecesTail, CodeAt, NextOff, Dist;
  }

  lemma AtThen(prog: seq<Byte>, pc: nat, b: Branch, nx: Cont) returns (d: nat)
    requires b.Cons? && At(prog, pc, Then(b, nx))
    ensures LinkedAt(prog, pc, b, d) && At(prog, pc + d, nx)
  {
    d := Dist(prog, pc, b);
  }

  lemma ThenNilAt(prog: seq<Byte>, pc: nat, nx: Cont)
    ensures At(prog, pc, Then(Nil, nx)) <==> At(prog, pc, nx)
  {
  }

  lemma LinkedSplit(prog: seq<Byte>, pc: nat, b: Branch, d: nat)
    requires b.Cons? && b.tail.Cons? && LinkedAt(prog, pc, b, d)
    ensures var n := PieceSize(b.head);
            CodeAt(prog, pc, PieceCode(b.head, n)) && LinkedAt(prog, pc + n, b.tail, Off(d, n))
  {
    hide CodeAt, NextOff, PiecesCode, PiecesSize, PiecesTail, PieceCode, PieceSize;
    var n := PieceSize(b.head);
    PiecesCodeUnfold(b, d);
    CodeAtParts(prog, pc, PieceCode(b.head, n), PiecesCode(b.tail, Off(d, n)));
  }

  lemma AtPiece(prog: seq<Byte>, pc: nat, p: Piece, rest: Branch, nx: Cont) returns (d: nat)
    requires At(prog, pc, Then(Cons(p, rest), nx))
    ensures PieceSize(p) <= d && CodeAt(prog, pc, PieceCode(p, d)) && At(prog, pc + d, Then(rest, nx))
  {
    hide CodeAt, PieceCode, PieceSize, NextOff, At, PiecesCode, PiecesSize, PiecesTail, Dist;
    var b := Cons(p, rest);
    d := AtThen(prog, pc, b, nx);
    PiecesCodeUnfold(b, d);
    if rest.Nil? {
      ThenNilAt(prog, pc + d, nx);
    } else {
      LinkedSplit(prog, pc, b, d);
      var n := PieceSize(p);
      ThenAt(prog, pc + n, rest, nx, Off(d, n));
      d := n;
    }
  }

  /** A parenthesis-free atom: its node, its operand, and what follows. */
  lemma AtAtom(prog: seq<Byte>, pc: nat, a: Atom, rest: Branch, nx: Cont)
    requires At(prog, pc, Then(Cons(Piece(a, false), rest), nx)) && !a.Group? && |prog| < 65536
    ensures prog[pc] == AtomOp(a) && CodeAt(prog, pc + 3, Operand(a))
    ensures NextOff(prog, pc) > 0 && At(prog, pc + NextOff(prog, pc), Then(rest, nx))
  {
    hide CodeAt, At, NextOff, Node, Operand;
    var d := AtPiece(prog, pc, Piece(a, false), rest, nx);
    CodeAtParts(prog, pc, Node(AtomOp(a), d), Operand(a));
    NodeDecodes(prog, pc, AtomOp(a), d);
  }

  lemma CloseAt(prog: seq<Byte>, pc: nat, n: nat, nx: Cont, o: nat)
    requires NodeAt(prog, pc, CloseOp(n), o) && o > 0 && At(prog, pc + o, nx)
    ensures At(prog, pc, Close(n, nx))
  {
  }

  lemma ChoiceAt(prog: seq<Byte>, pc: nat, alts: Alts, nx: Cont)
    requires nx.Close? || nx.Done?
    ensures At(prog, pc, Choice(alts, nx)) <==>
            CodeAt(prog, pc, ChainCode(alts, AltsSize(alts), AltsSize(alts))) && At(prog, pc + AltsSize(alts), nx)
  {
    hide ChainCode, CodeAt, AltsSize, NextOff;
  }

  lemma AtGroup(prog: seq<Byte>, pc: nat, n: nat, alts: Alts, rest: Branch, nx: Cont)
    requires At(prog, pc, Then(Cons(Piece(Group(n, alts), false), rest), nx)) && |prog| < 65536
    ensures NodeAt(prog, pc, OpenOp(n), 3)
    ensures At(prog, pc + 3, Choice(alts, Close(n, Then(rest, nx))))
  {
    hide CodeAt, At, NextOff, AtomCode, ChainCode, AltsSize, Node;
    var d := AtPiece(prog, pc, Piece(Group(n, alts), false), rest, nx);
    GroupAt(prog, pc, n, alts, d);
    var m := AltsSize(alts);
    assert d >= m + 6 by { GroupSize(n, alts); }
    NodeDecodes(prog, pc, OpenOp(n), 3);
    NodeDecodes(prog, pc + 3 + m, CloseOp(n), Off(d, 3 + m));
    CloseAt(prog, pc + 3 + m, n, Then(rest, nx), Off(d, 3 + m));
    ChoiceAt(prog, pc + 3, alts, Close(n, Then(rest, nx)));
  }

  lemma GroupSize(n: nat, alts: Alts)
    ensures PieceSize(Piece(Group(n, alts), false)) == AltsSize(alts) + 6
  {
  }

  lemma AtSimpleStar(prog: seq<Byte>, pc: nat, x: Atom, rest: Branch, nx: Cont)
    requires At(prog, pc, Then(Cons(Piece(x, true), rest), nx)) && Simple(x) && |prog| < 65536
    ensures prog[pc] == STAR && NextOff(prog, pc) > 0 && At(prog, pc + NextOff(prog, pc), Then(rest, nx))
    ensures pc + 6 <= |prog| && prog[pc + 3] == AtomOp(x) && CodeAt(prog, pc + 6, Operand(x))
  {
    hide CodeAt, At, NextOff, Node, Operand;
    var d := AtPiece(prog, pc, Piece(x, true), rest, nx);
    CodeAtParts(prog, pc, Node(STAR, d), AtomCode(x, 0));
    CodeAtParts(prog, pc + 3, Node(AtomOp(x), 0), Operand(x));
    NodeDecodes(prog, pc, STAR, d);
    NodeDecodes(prog, pc + 3, AtomOp(x), 0);
  }

  lemma LeaveAt(prog: seq<Byte>, pc: nat, nx: Cont, o: nat)
    requires NodeAt(prog, pc, BRANCH, 3) && NodeAt(prog, pc + 3, NOTHING, o) && o > 0 && At(prog, pc + 3 + o, nx)
    ensures At(prog, pc, Leave(nx))
  {
  }

  lemma AgainAt(prog: seq<Byte>, q: nat, x: Atom, from: nat, nx: Cont, d: nat)
    requires CodeAt(prog, q, PieceCode(Piece(x, true), d)) && d >= AtomSize(x) + 12 && !Simple(x)
    requires NodeAt(prog, q + AtomSize(x) + 9, NOTHING, d - AtomSize(x) - 9) && At(prog, q + d, nx)
    ensures At(prog, q + AtomSize(x) + 3, Again(x, from, nx))
  {
    hide CodeAt, PieceCode, AtomSize;
  }

  lemma AtLoop(prog: seq<Byte>, pc: nat, x: Atom, rest: Branch, nx: Cont, from: nat)
    requires At(prog, pc, Then(Cons(Piece(x, true), rest), nx)) && !Simple(x) && |prog| < 65536
    ensures prog[pc] == BRANCH && NextOff(prog, pc) == AtomSize(x) + 6
    ensures At(prog, pc + 3, Then(Cons(Piece(x, false), Nil), Again(x, from, Then(rest, nx))))
    ensures At(prog, pc + AtomSize(x) + 6, Leave(Then(rest, nx)))
  {
    hide CodeAt, At, NextOff, Node, AtomCode, PieceCode, AtomSize, Simple;
    var k := Then(rest, nx);
    var d := AtPiece(prog, pc, Piece(x, true), rest, nx);
    var n := AtomSize(x);
    ComplexStarAt(prog, pc, x, d);
    NodeDecodes(prog, pc, BRANCH, n + 6);
    NodeDecodes(prog, pc + 6 + n, BRANCH, 3);
    NodeDecodes(prog, pc + 9 + n, NOTHING, Off(d, n + 9));
    LeaveAt(prog, pc + 6 + n, k, d - n - 9);
    AgainAt(prog, pc, x, from, k, d);
    AtOnce(prog, pc + 3, x, Again(x, from, k), n);
  }

  /** One atom whose tail links to distance d. */
  lemma AtOnce(prog: seq<Byte>, pc: nat, x: Atom, nx: Cont, d: nat)
    requires CodeAt(prog, pc, AtomCode(x, d)) && |prog| < 65536
    requires AtomSize(x) <= d && At(prog, pc + d, nx)
    ensures At(prog, pc, Then(Cons(Piece(x, false), Nil), nx))
  {
    hide CodeAt, NextOff, Node, At, AtomCode, AtomSize, AtomTail, PiecesCode, PiecesSize, PiecesTail;
    var b := Cons(Piece(x, false), Nil);
    OneSize(x);
    PiecesCodeUnfold(b, d);
    AtomTailLink(prog, pc, x, d);
    ThenAt(prog, pc, b, nx, d);
  }

  lemma OneSize(x: Atom)
    ensures PiecesSize(Cons(Piece(x, false), Nil)) == AtomSize(x)
  {
  }

  lemma AtomTailLink(prog: seq<Byte>, pc: nat, x: Atom, d: nat)
    requires CodeAt(prog, pc, AtomCode(x, d)) && AtomSize(x) <= d < 65536
    ensures var t := pc + AtomTail(x); t + 3 <= |prog| && AtomTail(x) + NextOff(prog, t) == d
  {
    hide CodeAt, NextOff, Node, AltsSize, AltsCode, Operand;
    if x.Group? {
      GroupAt(prog, pc, x.n, x.alts, d);
      NodeDecodes(prog, pc + 3 + AltsSize(x.alts), CloseOp(x.n), Off(d, 3 + AltsSize(x.alts)));
    } else {
      CodeAtParts(prog, pc, Node(AtomOp(x), d), Operand(x));
      NodeDecodes(prog, pc, AtomOp(x), d);
    }
  }

  lemma PieceTailLink(prog: seq<Byte>, pc: nat, p: Piece, d: nat)
    requires CodeAt(prog, pc, PieceCode(p, d)) && PieceSize(p) <= d < 65536
    ensures var t := pc + PieceTail(p); t + 3 <= |prog| && PieceTail(p) + NextOff(prog, t) == d
  {
    hide CodeAt, NextOff, Node, AtomCode, AtomSize, AtomTail, Simple;
    if !p.star {
      AtomTailLink(prog, pc, p.atom, d);
    } else if Simple(p.atom) {
      CodeAtParts(prog, pc, Node(STAR, d), AtomCode(p.atom, 0));
      NodeDecodes(prog, pc, STAR, d);
    } else {
      ComplexStarAt(prog, pc, p.atom, d);
      NodeDecodes(prog, pc + 9 + AtomSize(p.atom), NOTHING, Off(d, AtomSize(p.atom) + 9));
    }
  }

  lemma {:induction false} PiecesTailLink(prog: seq<Byte>, pc: nat, b: Branch, d: nat)
    requires b.Cons? && CodeAt(prog, pc, PiecesCode(b, d)) && PiecesSize(b) <= d < 65536
    ensures Dist(prog, pc, b) == d
    decreases b
  {
    hide CodeAt, NextOff, PieceCode, PieceSize, PieceTail, PiecesCode, PiecesSize, PiecesTail;
    PiecesCodeUnfold(b, d);
    if b.tail.Nil? {
      PieceTailLink(prog, pc, b.head, d);
    } else {
      var n := PieceSize(b.head);
      CodeAtParts(prog, pc, PieceCode(b.head, n), PiecesCode(b.tail, Off(d, n)));
      PiecesTailLink(prog, pc + n, b.tail, Off(d, n));
    }
  }

  /** The body of an alternative, followed by nx. */
  ghost function Body(b: Branch, nx: Cont): Cont { if b.Nil? then Skip(nx) else Then(b, nx) }

  lemma BodyAt(prog: seq<Byte>, pc: nat, b: Branch, nx: Cont, d: nat)
    requires CodeAt(prog, pc, BodyCode(b, d)) && BodySize(b) <= d && At(prog, pc + d, nx) && |prog| < 65536
    ensures At(prog, pc, Body(b, nx))
  {
    hide CodeAt, NextOff, Node, PiecesCode, PiecesSize, PiecesTail;
    if b.Nil? {
      NodeDecodes(prog, pc, NOTHING, d);
    } else {
      PiecesTailLink(prog, pc, b, d);
      ThenAt(prog, pc, b, nx, d);
    }
  }

  lemma EnderOp(prog: seq<Byte>, pc: nat, nx: Cont)
    requires At(prog, pc, nx) && (nx.Close? || nx.Done?)
    ensures prog[pc] != BRANCH && prog[pc] != EXACTLY
  {
  }

  lemma ChoiceNext(prog: seq<Byte>, pc: nat, alts: Alts, nx: Cont)
    requires At(prog, pc, Choice(alts, nx))
    ensures nx.Close? || nx.Done?
  {
  }

  lemma AtLast(prog: seq<Byte>, pc: nat, b: Branch, nx: Cont)
    requires At(prog, pc, Choice(Last(b), nx)) && |prog| < 65536
    ensures prog[pc] == BRANCH && NextOff(prog, pc) == 3 + BodySize(b) && At(prog, pc + 3, Body(b, nx))
    ensures pc + 3 + BodySize(b) < |prog| && prog[pc + 3 + BodySize(b)] != BRANCH
  {
    hide CodeAt, NextOff, Node, BodyCode, BodySize, At, ChainCode;
    ChoiceNext(prog, pc, Last(b), nx);
    ChoiceAt(prog, pc, Last(b), nx);
    var n := 3 + BodySize(b);
    ChainCodeLast(b, n, n);
    CodeAtParts(prog, pc, Node(BRANCH, n), BodyCode(b, Off(n, 3)));
    NodeDecodes(prog, pc, BRANCH, n);
    BodyAt(prog, pc + 3, b, nx, n - 3);
    EnderOp(prog, pc + n, nx);
  }

  lemma AtMore(prog: seq<Byte>, pc: nat, b: Branch, rest: Alts, nx: Cont)
    requires At(prog, pc, Choice(More(b, rest), nx)) && |prog| < 65536
    ensures prog[pc] == BRANCH && NextOff(prog, pc) == 3 + BodySize(b) && At(prog, pc + 3, Body(b, nx))
    ensures At(prog, pc + 3 + BodySize(b), Choice(rest, nx))
  {
    hide CodeAt, NextOff, Node, BodyCode, BodySize, At, ChainCode;
    ChoiceNext(prog, pc, More(b, rest), nx);
    ChoiceAt(prog, pc, More(b, rest), nx);
    var n, m := 3 + BodySize(b), AltsSize(rest);
    ChainCodeMore(b, rest, n + m, n + m);
    var body, more := BodyCode(b, n + m - 3), ChainCode(rest, m, m);
    CodeAtParts(prog, pc, Node(BRANCH, n), body + more);
    CodeAtParts(prog, pc + 3, body, more);
    NodeDecodes(prog, pc, BRANCH, n);
    BodyAt(prog, pc + 3, b, nx, n + m - 3);
    ChoiceAt(prog, pc + n, rest, nx);
  }

  lemma ChoiceOp(prog: seq<Byte>, pc: nat, alts: Alts, nx: Cont)
    requires At(prog, pc, Choice(alts, nx)) && |prog| < 65536
    ensures prog[pc] == BRANCH
  {
    hide At, NextOff, BodySize;
    match alts
    case Last(b) => AtLast(prog, pc, b, nx);
    case More(b, rest) => AtMore(prog, pc, b, rest, nx);
  }

  lemma AtAgain(prog: seq<Byte>, pc: nat, x: Atom, from: nat, nx: Cont)
    requires At(prog, pc, Again(x, from, nx)) && !Simple(x) && |prog| < 65536
    ensures prog[pc] == BACK && NextOff(prog, pc) == AtomSize(x) + 3 <= pc
    ensures At(prog, pc - NextOff(prog, pc), Then(Cons(Piece(x, true), Nil), nx))
  {
    hide CodeAt, PieceCode, AtomSize, AtomCode, Node;
    var n := AtomSize(x);
    var q := pc - n - 3;
    var d := n + 9 + NextOff(prog, pc + 6);
    ComplexStarAt(prog, q, x, d);
    NodeDecodes(prog, pc, BACK, n + 3);
    StarOnce(prog, q, x, nx, d);
  }

  lemma StarOnce(prog: seq<Byte>, q: nat, x: Atom, nx: Cont, d: nat)
    requires CodeAt(prog, q, PieceCode(Piece(x, true), d)) && |prog| < 65536 && !Simple(x)
    requires AtomSize(x) + 12 <= d && At(prog, q + d, nx)
    ensures At(prog, q, Then(Cons(Piece(x, true), Nil), nx))
  {
    hide CodeAt, NextOff, At, PieceCode, AtomSize;
    var b := Cons(Piece(x, true), Nil);
    assert PiecesSize(b) == AtomSize(x) + 12 && PiecesCode(b, d) == PieceCode(Piece(x, true), d);
    PiecesTailLink(prog, q, b, d);
    ThenAt(prog, q, b, nx, d);
  }

  // ---- which node stands for what -----------------------------------------

  /** Finished sequences do not occupy any code. */
  ghost function Strip(k: Cont): Cont { if k.Then? && k.todo.Nil? then Strip(k.next) else k }

  lemma {:induction false} StripSame(k: Cont, prog: seq<Byte>, pc: nat, s: seq<Chr>, i: nat)
    requires i <= |s|
    ensures At(prog, pc, k) <==> At(prog, pc, Strip(k))
    ensures First(k, s, i) == First(Strip(k), s, i)
    ensures Weight(Strip(k), i) <= Weight(k, i)
    ensures Live(k, i, false) <==> Live(Strip(k), i, false)
    ensures !(Strip(k).Then? && Strip(k).todo.Nil?)
  {
    if k.Then? && k.todo.Nil? { StripSame(k.next, prog, pc, s, i); }
  }

  /** k is at a BRANCH node: alternatives, or a loop over a complex operand. */
  ghost predicate Branching(k: Cont) {
    k.Choice? || k.Leave? || (k.Then? && k.todo.Cons? && k.todo.head.star && !Simple(k.todo.head.atom))
  }

  ghost function OpOf(k: Cont): Byte
    requires !(k.Then? && k.todo.Nil?)
  {
    match k
    case Done => END
    case Skip(_) => NOTHING
    case Choice(_, _) => BRANCH
    case Leave(_) => BRANCH
    case Close(n, _) => CloseOp(n)
    case Again(_, _, _) => BACK
    case Then(Cons(p, _), _) => if !p.star then AtomOp(p.atom) else if Simple(p.atom) then STAR else BRANCH
  }

  lemma Kind(prog: seq<Byte>, pc: nat, k: Cont, i: nat)
    requires At(prog, pc, k) && Live(k, i, false) && !(k.Then? && k.todo.Nil?) && |prog| < 65536
    ensures prog[pc] == OpOf(k)
  {
    match k
    case Done =>
    case Skip(_) =>
    case Leave(_) =>
    case Close(n, _) =>
    case Choice(alts, nx) => ChoiceOp(prog, pc, alts, nx);
    case Again(x, from, nx) => AtAgain(prog, pc, x, from, nx);
    case Then(Cons(p, rest), nx) => PieceOp(prog, pc, p, rest, nx);
  }

  lemma PieceOp(prog: seq<Byte>, pc: nat, p: Piece, rest: Branch, nx: Cont)
    requires At(prog, pc, Then(Cons(p, rest), nx)) && |prog| < 65536
    ensures prog[pc] == OpOf(Then(Cons(p, rest), nx))
  {
    hide At, NextOff, AtomSize;
    if p.star {
      if Simple(p.atom) { AtSimpleStar(prog, pc, p.atom, rest, nx); } else { AtLoop(prog, pc, p.atom, rest, nx, 0); }
    } else if p.atom.Group? {
      AtGroup(prog, pc, p.atom.n, p.atom.alts, rest, nx);
    } else {
      AtAtom(prog, pc, p.atom, rest, nx);
    }
  }

  /** What the operand of a BRANCH node stands for, and what its successor does if that
      is a BRANCH too. */
  ghost function Option1(k: Cont, i: nat): Cont
    requires Branching(k)
  {
    match k
    case Choice(Last(b), nx) => Body(b, nx)
    case Choice(More(b, _), nx) => Body(b, nx)
    case Leave(nx) => Skip(nx)
    case Then(Cons(p, rest), nx) => Then(Cons(Piece(p.atom, false), Nil), Again(p.atom, i, Then(rest, nx)))
  }

  ghost function Option2(k: Cont): Option<Cont>
    requires Branching(k)
  {
    match k
    case Choice(Last(_), _) => None
    case Choice(More(_, rest), nx) => Some(Choice(rest, nx))
    case Leave(_) => None
    case Then(Cons(_, rest), nx) => Some(Leave(Then(rest, nx)))
  }

  lemma BranchSearch(k: Cont, s: seq<Chr>, i: nat)
    requires Branching(k) && i <= |s|
    ensures First(k, s, i)
         == OrElse(First(Option1(k, i), s, i),
                   if Option2(k).None? then None else First(Option2(k).value, s, i))
    ensures Weight(Option1(k, i), i) < Weight(k, i)
    ensures Option2(k).Some? ==> Weight(Option2(k).value, i) < Weight(k, i) && Branching(Option2(k).value)
  {
    if k.Then? { WeightThen(k.todo.head, k.todo.tail, k.next, i); }
  }

  lemma BranchLive(k: Cont, i: nat)
    requires Branching(k) && Live(k, i, false)
    ensures Live(Option1(k, i), i, false)
    ensures Option2(k).Some? ==> Live(Option2(k).value, i, false)
  {
    match k
    case Choice(Last(b), nx) =>
    case Choice(More(b, rest), nx) =>
      LiveMore(nx, i, AltsWidth(k.alts), BranchWidth(b));
      LiveMore(nx, i, AltsWidth(k.alts), AltsWidth(rest));
    case Leave(nx) =>
    case Then(Cons(p, rest), nx) =>
      LivePiece(p, rest, nx, i);
      LiveMore(Then(rest, nx), i, false, true);
      LiveOnce(p.atom, Again(p.atom, i, Then(rest, nx)), i);
  }

  lemma LivePiece(p: Piece, rest: Branch, nx: Cont, i: nat)
    requires Live(Then(Cons(p, rest), nx), i, false)
    ensures GoodPiece(p) && GoodBranch(rest) && Live(nx, i, PieceWidth(p) || BranchWidth(rest))
    ensures Live(Then(rest, nx), i, PieceWidth(p))
  {
    var b := Cons(p, rest);
    assert GoodBranch(b) && Live(nx, i, BranchWidth(b));
    assert BranchWidth(b) == (PieceWidth(p) || BranchWidth(rest));
  }

  lemma LiveOnce(x: Atom, nx: Cont, i: nat)
    requires GoodAtom(x) && Live(nx, i, AtomWidth(x))
    ensures Live(Then(Cons(Piece(x, false), Nil), nx), i, false)
  {
    var b := Cons(Piece(x, false), Nil);
    assert PieceWidth(b.head) == AtomWidth(x) && !BranchWidth(Nil) && GoodBranch(Nil);
    assert BranchWidth(b) == AtomWidth(x) && GoodBranch(b);
  }

  lemma BranchAt(prog: seq<Byte>, pc: nat, k: Cont, i: nat)
    requires At(prog, pc, k) && Branching(k) && |prog| < 65536
    ensures prog[pc] == BRANCH && At(prog, pc + 3, Option1(k, i))
    ensures var nxt := pc + NextOff(prog, pc);
            && pc < nxt < |prog| && (prog[nxt] == BRANCH <==> Option2(k).Some?)
            && (Option2(k).Some? ==> At(prog, nxt, Option2(k).value))
  {
    hide At, NextOff, BodySize, AtomSize, Simple;
    match k
    case Choice(Last(b), nx) => AtLast(prog, pc, b, nx);
    case Choice(More(b, rest), nx) =>
      AtMore(prog, pc, b, rest, nx);
      ChoiceOp(prog, pc + 3 + BodySize(b), rest, nx);
    case Leave(nx) => AtLeave(prog, pc, nx);
    case Then(Cons(p, rest), nx) =>
      AtLoop(prog, pc, p.atom, rest, nx, i);
      AtLeave(prog, pc + AtomSize(p.atom) + 6, Then(rest, nx));
  }

  lemma AtLeave(prog: seq<Byte>, pc: nat, nx: Cont)
    requires At(prog, pc, Leave(nx))
    ensures prog[pc] == BRANCH && NextOff(prog, pc) == 3 && pc + 3 < |prog| && prog[pc + 3] != BRANCH
    ensures At(prog, pc + 3, Skip(nx))
  {
  }

  // ---- C strings in the program and in the text ----------------------------

  /** The NUL-terminated string str stands at p. */
  ghost predicate StrAt(prog: seq<Byte>, p: nat, str: seq<Byte>) {
    CodeAt(prog, p, str + [0]) && 0 !in str
  }

  lemma StrBytes(prog: seq<Byte>, p: nat, str: seq<Byte>)
    requires StrAt(prog, p, str)
    ensures p + |str| < |prog| && prog[p + |str|] == 0
    ensures forall k | 0 <= k < |str| :: prog[p + k] == str[k] != 0
  {
    var c := str + [0];
    assert forall k | 0 <= k < |c| :: prog[p..p + |c|][k] == c[k];
  }

  lemma StrEnd(prog: seq<Byte>, p: nat, str: seq<Byte>, k: nat)
    requires StrAt(prog, p, str) && k <= |str| && p + k < |prog| && prog[p + k] == 0
    ensures k == |str|
  {
    StrBytes(prog, p, str);
  }

  ghost function OperandText(a: Atom): seq<Byte> {
    match a
    case AnyOf(body) => ClassSet(body)
    case AnyBut(body) => ClassSet(body)
    case Exactly(text) => Text(text)
    case _ => []
  }

  lemma {:induction false} RangeNonzero(lo: Byte, hi: Byte)
    ensures 0 !in RangeBytes(lo, hi)
    decreases hi - lo
  {
    if lo < hi { RangeNonzero(lo + 1, hi); }
  }

  lemma {:induction false} ClassNonzero(body: seq<Token>, k: nat)
    requires k <= |body| && GoodTokens(body)
    ensures var r := ClassBytes(body, k); r.Some? ==> 0 !in r.value
    decreases |body| - k
  {
    if k < |body| {
      ClassNonzero(body, k + 1);
      if k > 0 && body[k] == MINUS && k + 1 < |body| {
        ClassNonzero(body, k + 2);
        RangeNonzero(LowByte(body[k - 1]), LowByte(body[k + 1]));
      }
    }
  }

  lemma OperandIsString(prog: seq<Byte>, p: nat, a: Atom)
    requires GoodAtom(a) && CodeAt(prog, p, Operand(a)) && (a.AnyOf? || a.AnyBut? || a.Exactly?)
    ensures StrAt(prog, p, OperandText(a))
  {
    if a.AnyOf? || a.AnyBut? { ClassNonzero(a.body, 0); }
  }

  /** The string of a bracket expression holds just the characters it stands for. */
  lemma ClassFound(a: Atom, c: Chr)
    requires GoodAtom(a) && (a.AnyOf? || a.AnyBut?)
    ensures OneChar(a, c) <==> (c in OperandText(a)) == a.AnyOf?
  {
    hide ClassSet, InClass, GoodClass;
    ClassMeaning(a.body, c);
  }

  /** *p in the text: 0 at its end. */
  function Ch(s: seq<Chr>, i: nat): Byte { if i < |s| then s[i] else 0 }

  method StrChr(prog: seq<Byte>, p: nat, c: Chr, ghost str: seq<Byte>) returns (found: bool)
    requires StrAt(prog, p, str)
    ensures found <==> c in str
  {
    hide StrAt;
    StrBytes(prog, p, str);
    var k := 0;
    while prog[p + k] != 0
      invariant 0 <= k <= |str|
      invariant forall t | 0 <= t < k :: str[t] != c
      decreases |str| - k
    {
      assert prog[p + k] == str[k];
      if prog[p + k] == c { return true; }
      k := k + 1;
    }
    StrEnd(prog, p, str, k);
    return false;
  }

  method StrLen(prog: seq<Byte>, p: nat, ghost str: seq<Byte>) returns (n: nat)
    requires StrAt(prog, p, str)
    ensures n == |str|
  {
    hide StrAt;
    StrBytes(prog, p, str);
    n := 0;
    while prog[p + n] != 0
      invariant n <= |str|
      decreases |str| - n
    {
      n := n + 1;
    }
    StrEnd(prog, p, str, n);
  }

  /** strncmp(program + p, text + i, n) == 0, where n does not exceed the operand. */
  method StrNEq(prog: seq<Byte>, p: nat, text: seq<Chr>, i: nat, n: nat, ghost str: seq<Byte>) returns (eq: bool)
    requires StrAt(prog, p, str) && n <= |str| && i <= |text|
    ensures eq <==> i + n <= |text| && text[i..i + n] == str[..n]
  {
    hide StrAt;
    StrBytes(prog, p, str);
    var k := 0;
    while k < n
      invariant k <= n && i + k <= |text|
      invariant forall t | 0 <= t < k :: text[i + t] == str[t]
    {
      assert prog[p + k] == str[k];
      if Ch(text, i + k) != prog[p + k] {
        assert i + n <= |text| ==> text[i..i + n][k] != str[..n][k];
        return false;
      }
      k := k + 1;
    }
    return true;
  }

  /** A literal next node lets the star skip positions where it cannot match. */
  lemma Lookahead(prog: seq<Byte>, pc: nat, k: Cont, s: seq<Chr>, i: nat)
    requires At(prog, pc, k) && Live(k, i, false) && |prog| < 65536 && i <= |s| && prog[pc] == EXACTLY
    ensures pc + 3 < |prog| && (Ch(s, i) != prog[pc + 3] ==> First(k, s, i) == None) && prog[pc + 3] != 0
  {
    StripSame(k, prog, pc, s, i);
    var k' := Strip(k);
    Kind(prog, pc, k', i);
    assert k'.Then? && k'.todo.Cons? && !k'.todo.head.star && k'.todo.head.atom.Exactly?;
    LookaheadText(prog, pc, k'.todo.head.atom, k'.todo.tail, k'.next, s, i);
  }

  lemma LookaheadText(prog: seq<Byte>, pc: nat, a: Atom, rest: Branch, nx: Cont, s: seq<Chr>, i: nat)
    requires At(prog, pc, Then(Cons(Piece(a, false), rest), nx)) && |prog| < 65536 && i <= |s|
    requires a.Exactly? && Live(Then(Cons(Piece(a, false), rest), nx), i, false)
    ensures pc + 3 < |prog| && prog[pc + 3] != 0
    ensures Ch(s, i) != prog[pc + 3] ==> First(Then(Cons(Piece(a, false), rest), nx), s, i) == None
  {
    hide At, CodeAt, Live;
    AtAtom(prog, pc, a, rest, nx);
    LivePiece(Piece(a, false), rest, nx, i);
    OperandIsString(prog, pc + 3, a);
    var str := OperandText(a);
    StrBytes(prog, pc + 3, str);
    assert prog[pc + 3 + 0] == str[0];
    if Ch(s, i) != prog[pc + 3] && i + |str| <= |s| {
      assert s[i..i + |str|][0] == s[i];
    }
  }

  // ---- one step of the matcher --------------------------------------------

  /** k' at pc' and i' is a step on from k at i. */
  ghost predicate Steps(prog: seq<Byte>, s: seq<Chr>, k: Cont, i: nat, pc': nat, k': Cont, i': nat) {
    && i <= i' <= |s| && At(prog, pc', k') && Live(k', i', false)
    && First(k', s, i') == First(k, s, i)
    && (i < i' || Weight(k', i') < Weight(k, i))
  }

  lemma StepSkip(prog: seq<Byte>, pc: nat, k: Cont, s: seq<Chr>, i: nat) returns (k': Cont)
    requires At(prog, pc, k) && Live(k, i, false) && i <= |s|
    requires !(k.Then? && k.todo.Nil?) && OpOf(k) == NOTHING
    ensures Steps(prog, s, k, i, pc + NextOff(prog, pc), k', i)
  {
    k' := k.next;
  }

  lemma StepBack(prog: seq<Byte>, pc: nat, k: Cont, s: seq<Chr>, i: nat) returns (k': Cont)
    requires At(prog, pc, k) && Live(k, i, false) && i <= |s| && |prog| < 65536
    requires !(k.Then? && k.todo.Nil?) && OpOf(k) == BACK
    ensures NextOff(prog, pc) <= pc && Steps(prog, s, k, i, pc - NextOff(prog, pc), k', i)
  {
    AtAgain(prog, pc, k.x, k.from, k.next);
    var b := Cons(Piece(k.x, true), Nil);
    k' := Then(b, k.next);
    assert !BranchWidth(b) by { assert !PieceWidth(b.head) && !BranchWidth(b.tail); }
    assert GoodBranch(b) by { assert GoodPiece(b.head) && GoodBranch(b.tail); }
    WeightAgain(k.x, k.from, k.next, i);
  }

  lemma IsBranching(k: Cont)
    requires !(k.Then? && k.todo.Nil?) && OpOf(k) == BRANCH
    ensures Branching(k)
  {
  }

  lemma StepOnly(prog: seq<Byte>, pc: nat, k: Cont, s: seq<Chr>, i: nat) returns (k': Cont)
    requires At(prog, pc, k) && Live(k, i, false) && i <= |s| && |prog| < 65536
    requires Branching(k) && Option2(k).None?
    ensures Steps(prog, s, k, i, pc + 3, k', i)
  {
    hide At, Live, First, Weight, Branching, Option1, Option2;
    k' := Option1(k, i);
    BranchAt(prog, pc, k, i);
    BranchLive(k, i);
    BranchSearch(k, s, i);
  }

  lemma IsAtom(k: Cont, i: nat)
    requires !(k.Then? && k.todo.Nil?) && Live(k, i, false)
    requires OpOf(k) != END && OpOf(k) != NOTHING && OpOf(k) != BACK && OpOf(k) != BRANCH && OpOf(k) != STAR
    requires !(OPEN < OpOf(k) < OPEN + NSUBEXP) && !(CLOSE < OpOf(k) < CLOSE + NSUBEXP)
    ensures k.Then? && k.todo.Cons? && k.todo.head == Piece(k.todo.head.atom, false)
    ensures !k.todo.head.atom.Group? && GoodAtom(k.todo.head.atom)
  {
    if k.Then? { LivePiece(k.todo.head, k.todo.tail, k.next, i); }
  }

  lemma StepAtom(prog: seq<Byte>, pc: nat, k: Cont, s: seq<Chr>, i: nat) returns (k': Cont)
    requires At(prog, pc, k) && Live(k, i, false) && i <= |s| && |prog| < 65536
    requires k.Then? && k.todo.Cons? && k.todo.head == Piece(k.todo.head.atom, false) && !k.todo.head.atom.Group?
    ensures var r := Advance(k.todo.head.atom, s, i);
            if r.None? then First(k, s, i).None? else Steps(prog, s, k, i, pc + NextOff(prog, pc), k', r.value)
  {
    hide At, NextOff;
    var a, rest, nx := k.todo.head.atom, k.todo.tail, k.next;
    k' := Then(rest, nx);
    AtAtom(prog, pc, a, rest, nx);
    LivePiece(k.todo.head, rest, nx, i);
    WeightThen(k.todo.head, rest, nx, i);
    var r := Advance(a, s, i);
    if r.Some? && i < r.value { LiveAfter(k', i, PieceWidth(k.todo.head), r.value); }
  }

  lemma EndResult(k: Cont, s: seq<Chr>, i: nat)
    requires i <= |s| && !(k.Then? && k.todo.Nil?) && OpOf(k) == END
    ensures First(k, s, i) == Some(Hit(i, NOWHERE, NOWHERE))
  {
  }

  lemma IsStar(k: Cont, i: nat)
    requires !(k.Then? && k.todo.Nil?) && OpOf(k) == STAR && Live(k, i, false)
    ensures k.Then? && k.todo.Cons? && k.todo.head == Piece(k.todo.head.atom, true)
    ensures Simple(k.todo.head.atom) && GoodAtom(k.todo.head.atom) && Live(Then(k.todo.tail, k.next), i, false)
  {
    LivePiece(k.todo.head, k.todo.tail, k.next, i);
  }

  lemma StarSearch(x: Atom, rest: Branch, nx: Cont, s: seq<Chr>, i: nat)
    requires Simple(x) && i <= |s|
    ensures First(Then(Cons(Piece(x, true), rest), nx), s, i) == FirstDown(Then(rest, nx), s, i, Repeat(x, s, i))
  {
  }

  lemma DownStep(k: Cont, s: seq<Chr>, i: nat, n: nat)
    requires i + n <= |s|
    ensures FirstDown(k, s, i, n) == OrElse(First(k, s, i + n), if n == 0 then None else FirstDown(k, s, i, n - 1))
  {
  }

  lemma StarLive(k: Cont, i: nat, n: nat)
    requires Live(k, i, false)
    ensures Live(k, i + n, false)
  {
    if n > 0 { LiveAfter(k, i, false, i + n); }
  }

  lemma IsGroup(prog: seq<Byte>, pc: nat, k: Cont, s: seq<Chr>, i: nat) returns (k': Cont)
    requires !(k.Then? && k.todo.Nil?) && At(prog, pc, k) && Live(k, i, false) && i <= |s| && |prog| < 65536
    requires OPEN < OpOf(k) < OPEN + NSUBEXP
    ensures At(prog, pc + NextOff(prog, pc), k') && Live(k', i, false) && Weight(k', i) < Weight(k, i)
    ensures First(k, s, i) == MarkStart(First(k', s, i), OpOf(k) - OPEN, i)
  {
    hide At, NextOff, Live, Weight, OpOf;
    GroupShape(k, i);
    var p, rest, nx := k.todo.head, k.todo.tail, k.next;
    var n, alts := p.atom.n, p.atom.alts;
    AtGroup(prog, pc, n, alts, rest, nx);
    WeightThen(p, rest, nx, i);
    k' := Choice(alts, Close(n, Then(rest, nx)));
  }

  lemma GroupShape(k: Cont, i: nat)
    requires !(k.Then? && k.todo.Nil?) && Live(k, i, false) && OPEN < OpOf(k) < OPEN + NSUBEXP
    ensures k.Then? && k.todo.Cons? && k.todo.head == Piece(k.todo.head.atom, false)
    ensures k.todo.head.atom == Group(OpOf(k) - OPEN, k.todo.head.atom.alts)
    ensures Live(Choice(k.todo.head.atom.alts, Close(OpOf(k) - OPEN, Then(k.todo.tail, k.next))), i, false)
  {
    var p := k.todo.head;
    LivePiece(p, k.todo.tail, k.next, i);
    assert p.atom.Group? && AtomWidth(p.atom) == AltsWidth(p.atom.alts);
    assert Live(Close(p.atom.n, Then(k.todo.tail, k.next)), i, AltsWidth(p.atom.alts));
  }

  lemma IsClose(prog: seq<Byte>, pc: nat, k: Cont, s: seq<Chr>, i: nat) returns (k': Cont)
    requires !(k.Then? && k.todo.Nil?) && At(prog, pc, k) && Live(k, i, false) && i <= |s|
    requires CLOSE < OpOf(k) < CLOSE + NSUBEXP
    ensures At(prog, pc + NextOff(prog, pc), k') && Live(k', i, false) && Weight(k', i) < Weight(k, i)
    ensures First(k, s, i) == MarkEnd(First(k', s, i), OpOf(k) - CLOSE, i)
  {
    if k.Then? { LivePiece(k.todo.head, k.todo.tail, k.next, i); }
    k' := k.next;
  }

  // ---- regmatch -----------------------------------------------------------

  class Matcher {
    const prog: seq<Byte>
    const text: seq<Chr>
    const startp: array<int>
    const endp: array<int>
    var reginput: nat

    ghost predicate Valid()
      reads this, startp, endp
    {
      && |prog| < 65536
      && reginput <= |text|
      && startp != endp && startp.Length == endp.Length == NSUBEXP
    }

    /** regtry has cleared the sub-expression pointers, and no call has succeeded. */
    ghost predicate Clear()
      reads startp, endp
    {
      startp[..] == NOWHERE && endp[..] == NOWHERE
    }

    constructor (p: seq<Byte>, t: seq<Chr>)
      requires |p| < 65536
      ensures prog == p && text == t && Valid() && Clear() && fresh(startp) && fresh(endp)
    {
      prog, text := p, t;
      startp := new int[NSUBEXP](_ => -1);
      endp := new int[NSUBEXP](_ => -1);
      reginput := 0;
    }

    method ClearAll()
      requires Valid()
      modifies startp, endp
      ensures Valid() && Clear()
    {
      for i := 0 to NSUBEXP
        invariant forall k | 0 <= k < i :: startp[k] == -1 && endp[k] == -1
      {
        startp[i] := -1;
        endp[i] := -1;
      }
      assert forall k | 0 <= k < NSUBEXP :: NOWHERE[k] == -1;
    }

    /** The ordinary nodes of regmatch, those that need not know whether the rest of the
        match fails. */
    method MatchNode(scan: nat, ghost a: Atom) returns (ok: bool)
      requires Valid() && scan + 3 <= |prog|
      requires !a.Group? && GoodAtom(a) && prog[scan] == AtomOp(a) && CodeAt(prog, scan + 3, Operand(a))
      modifies this`reginput
      ensures var r := Advance(a, text, old(reginput));
              && Valid() && (ok <==> r.Some?) && reginput == if ok then r.value else old(reginput)
    {
      hide CodeAt, Operand, GoodAtom;
      var op := prog[scan];
      var c := Ch(text, reginput);
      if op == BOL {
        return reginput == 0;
      } else if op == EOL {
        return c == 0;
      } else if op == ANY {
        if c == 0 { return false; }
        reginput := reginput + 1;
      } else if op == WORDSTART {
        if reginput == 0 { return true; }
        return !(c == 0 || WordPart(text[reginput - 1]) || !WordPart(c));
      } else if op == WORDEND {
        if c == 0 { return true; }
        return !(reginput == 0 || !WordPart(text[reginput - 1]) || WordPart(c));
      } else if op == EXACTLY {
        ok := MatchText(scan + 3, a);
        return;
      } else {
        OperandIsString(prog, scan + 3, a);
        if c == 0 { return false; }
        var found := StrChr(prog, scan + 3, c, OperandText(a));
        ClassFound(a, c);
        if found == (op == ANYBUT) { return false; }
        reginput := reginput + 1;
      }
      return true;
    }

    method MatchText(opnd: nat, ghost a: Atom) returns (ok: bool)
      requires Valid() && a.Exactly? && GoodAtom(a) && CodeAt(prog, opnd, Operand(a))
      modifies this`reginput
      ensures var r := Advance(a, text, old(reginput));
              && Valid() && (ok <==> r.Some?) && reginput == if ok then r.value else old(reginput)
    {
      ghost var str := OperandText(a);
      OperandIsString(prog, opnd, a);
      StrBytes(prog, opnd, str);
      assert str[..1][0] == str[0] && str[..|str|] == str;
      assert prog[opnd] == str[0];
      if prog[opnd] != Ch(text, reginput) {
        assert reginput + |str| <= |text| ==> text[reginput..reginput + |str|][0] != str[0];
        return false;
      }
      var len := StrLen(prog, opnd, str);
      if len > 1 {
        var eq := StrNEq(prog, opnd, text, reginput, len, str);
        if !eq { return false; }
      } else {
        assert text[reginput..reginput + 1] == str;
      }
      reginput := reginput + len;
      return true;
    }

    /** regrepeat */
    method RegRepeat(p: nat, ghost x: Atom) returns (count: nat)
      requires Valid() && p + 3 <= |prog| && Simple(x) && GoodAtom(x)
      requires prog[p] == AtomOp(x) && CodeAt(prog, p + 3, Operand(x))
      modifies this`reginput
      ensures Valid() && count == Repeat(x, text, old(reginput)) && reginput == old(reginput) + count
    {
      hide CodeAt, Operand, GoodAtom;
      count := 0;
      if prog[p] != ANY { OperandIsString(prog, p + 3, x); }
      while true
        invariant Valid() && reginput == old(reginput) + count
        invariant Repeat(x, text, old(reginput)) == count + Repeat(x, text, reginput)
        decreases |text| - reginput
      {
        var c := Ch(text, reginput);
        if c == 0 { break; }
        var ok := true;
        if prog[p] == EXACTLY {
          StrBytes(prog, p + 3, OperandText(x));
          ok := prog[p + 3] == c;
        } else if prog[p] != ANY {
          ok := StrChr(prog, p + 3, c, OperandText(x));
          ClassFound(x, c);
          if prog[p] == ANYBUT { ok := !ok; }
        }
        if !ok { break; }
        count := count + 1;
        reginput := reginput + 1;
      }
    }
  
    /** The outcome of matching k at i. */
    ghost predicate Result(k: Cont, i: nat, ok: bool)
      reads this, startp, endp
    {
      && Valid() && i <= |text|
      && var r := First(k, text, i);
      && (ok <==> r.Some?)
      && (if ok then r.Some? && reginput == r.value.end && startp[..] == r.value.starts && endp[..] == r.value.ends
          else Clear())
    }

    /** regmatch.  It ends because every trip round a loop has consumed something. */
    method RegMatch(at: nat, ghost k0: Cont) returns (ok: bool)
      requires Valid() && Clear() && At(prog, at, k0) && Live(k0, reginput, false)
      modifies this`reginput, startp, endp
      ensures Result(k0, old(reginput), ok)
      decreases |text| - reginput, Weight(k0, reginput), 3
    {
      hide At, Live, NextOff, First, Weight, CodeAt, OpOf, Branching, Option1, Option2;
      var scan: nat := at;
      ghost var k := k0;
      while true
        invariant Valid() && Clear() && At(prog, scan, k) && Live(k, reginput, false)
        invariant First(k, text, reginput) == First(k0, text, old(reginput))
        invariant reginput >= old(reginput)
        invariant reginput == old(reginput) ==> Weight(k, reginput) <= Weight(k0, reginput)
        decreases |text| - reginput, Weight(k, reginput)
      {
        StripSame(k, prog, scan, text, reginput);
        k := Strip(k);
        Kind(prog, scan, k, reginput);
        var op := prog[scan];
        var next := NextOff(prog, scan);
        ghost var i := reginput;
        if op == END {
          EndResult(k, text, reginput);
          return true;
        } else if op == NOTHING {
          k := StepSkip(prog, scan, k, text, i);
          scan := scan + next;
        } else if op == BACK {
          k := StepBack(prog, scan, k, text, i);
          scan := scan - next;
        } else if op == BRANCH {
          IsBranching(k);
          BranchAt(prog, scan, k, i);
          if prog[scan + next] == BRANCH {
            ok := TryBranches(scan, k);
            return;
          }
          k := StepOnly(prog, scan, k, text, i);
          scan := scan + 3;
        } else if op == STAR {
          ok := TryStar(scan, k);
          return;
        } else if OPEN < op < OPEN + NSUBEXP {
          ok := TryGroup(scan, k);
          return;
        } else if CLOSE < op < CLOSE + NSUBEXP {
          ok := TryClose(scan, k);
          return;
        } else {
          IsAtom(k, i);
          AtAtom(prog, scan, k.todo.head.atom, k.todo.tail, k.next);
          ok := MatchNode(scan, k.todo.head.atom);
          k := StepAtom(prog, scan, k, text, i);
          if !ok { return; }
          scan := scan + next;
        }
      }
    }
  
    method TryBranches(at: nat, ghost k0: Cont) returns (ok: bool)
      requires Valid() && Clear() && At(prog, at, k0) && Live(k0, reginput, false) && Branching(k0)
      modifies this`reginput, startp, endp
      ensures Result(k0, old(reginput), ok)
      decreases |text| - reginput, Weight(k0, reginput), 2
    {
      hide At, Live, NextOff, First, Weight, Branching, Option1, Option2;
      var scan: nat := at;
      ghost var k := k0;
      var save := reginput;
      while true
        invariant Valid() && Clear() && reginput == save && At(prog, scan, k) && Live(k, save, false) && Branching(k)
        invariant First(k, text, save) == First(k0, text, save) && Weight(k, save) <= Weight(k0, save)
        decreases Weight(k, save)
      {
        BranchAt(prog, scan, k, save);
        BranchLive(k, save);
        BranchSearch(k, text, save);
        ok := RegMatch(scan + 3, Option1(k, save));
        if ok { return; }
        reginput := save;
        scan := scan + NextOff(prog, scan);
        if prog[scan] != BRANCH { return; }
        k := Option2(k).value;
      }
    }

    method TryStar(scan: nat, ghost k0: Cont) returns (ok: bool)
      requires Valid() && Clear() && At(prog, scan, k0) && Live(k0, reginput, false)
      requires !(k0.Then? && k0.todo.Nil?) && OpOf(k0) == STAR
      modifies this`reginput, startp, endp
      ensures Result(k0, old(reginput), ok)
      decreases |text| - reginput, Weight(k0, reginput), 2
    {
      hide At, Live, NextOff, First, FirstDown, Weight, OpOf, CodeAt, Operand, Repeat, Simple, AtomOp, GoodAtom;
      IsStar(k0, reginput);
      ghost var x, rest, nx := k0.todo.head.atom, k0.todo.tail, k0.next;
      ghost var k := Then(rest, nx);
      AtSimpleStar(prog, scan, x, rest, nx);
      WeightThen(k0.todo.head, rest, nx, reginput);
      var nxt := scan + NextOff(prog, scan);
      var save := reginput;
      StarSearch(x, rest, nx, text, save);
      var nextch: Byte := 0;
      if prog[nxt] == EXACTLY {
        Lookahead(prog, nxt, k, text, reginput);
        nextch := prog[nxt + 3];
      }
      ghost var all := First(k0, text, save);
      var no: int := RegRepeat(scan + 3, x);
      while no >= 0
        invariant Valid() && Clear() && -1 <= no && save + no <= |text|
        invariant no >= 0 ==> reginput == save + no && all == FirstDown(k, text, save, no)
        invariant no < 0 ==> all == None
        invariant nextch != 0 ==> prog[nxt] == EXACTLY && nxt + 3 < |prog| && nextch == prog[nxt + 3]
        decreases no + 1
      {
        DownStep(k, text, save, no);
        StarLive(k, save, no);
        if nextch != 0 { Lookahead(prog, nxt, k, text, reginput); }
        if nextch == 0 || Ch(text, reginput) == nextch {
          ok := RegMatch(nxt, k);
          if ok { return; }
        }
        no := no - 1;
        if no >= 0 { reginput := save + no; }
      }
      return false;
    }

    method TryGroup(scan: nat, ghost k0: Cont) returns (ok: bool)
      requires Valid() && Clear() && At(prog, scan, k0) && Live(k0, reginput, false)
      requires !(k0.Then? && k0.todo.Nil?) && prog[scan] == OpOf(k0) && OPEN < OpOf(k0) < OPEN + NSUBEXP
      modifies this`reginput, startp, endp
      ensures Result(k0, old(reginput), ok)
      decreases |text| - reginput, Weight(k0, reginput), 2
    {
      hide At, Live, NextOff, First, Weight, OpOf;
      var no := prog[scan] - OPEN;
      var save := reginput;
      ghost var k := IsGroup(prog, scan, k0, text, save);
      ok := RegMatch(scan + NextOff(prog, scan), k);
      if ok && startp[no] == -1 { startp[no] := save; }
    }

    method TryClose(scan: nat, ghost k0: Cont) returns (ok: bool)
      requires Valid() && Clear() && At(prog, scan, k0) && Live(k0, reginput, false)
      requires !(k0.Then? && k0.todo.Nil?) && prog[scan] == OpOf(k0) && CLOSE < OpOf(k0) < CLOSE + NSUBEXP
      modifies this`reginput, startp, endp
      ensures Result(k0, old(reginput), ok)
      decreases |text| - reginput, Weight(k0, reginput), 2
    {
      hide At, Live, NextOff, First, Weight, OpOf;
      var no := prog[scan] - CLOSE;
      var save := reginput;
      ghost var k := IsClose(prog, scan, k0, text, save);
      ok := RegMatch(scan + NextOff(prog, scan), k);
      if ok && endp[no] == -1 { endp[no] := save; }
    }
  }
}
