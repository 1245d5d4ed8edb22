/** The bytecode of src/regexp.c as a function of the syntax tree.

    A node is an opcode byte and a two-byte relative "next" offset, 0 meaning none;
    operands follow.  The code of every tree is position independent.  Its parameter
    `d` is the distance from the start of the code to the node that follows it, or 0
    while the tail is still unpatched.
 */
module RegexpCode {
  import opened RegexpSyntax

  const END: Byte := 0
  const BOL: Byte := 1
  const EOL: Byte := 2
  const ANY: Byte := 3
  const ANYOF: Byte := 4
  const ANYBUT: Byte := 5
  const BRANCH: Byte := 6
  const BACK: Byte := 7
  const EXACTLY: Byte := 8
  const NOTHING: Byte := 9
  const STAR: Byte := 10
  const WORDSTART: Byte := 11
  const WORDEND: Byte := 12
  const OPEN: Byte := 20
  const CLOSE: Byte := 30
  const MAGIC: Byte := 156
  const MAXCODE := 32767

  function Node(op: Byte, off: nat): (c: seq<Byte>)
    ensures |c| == 3
  {
    [op, (off / 256) % 256, off % 256]
  }

  /** NEXT(p) */
  function NextOff(buf: seq<Byte>, p: nat): (o: nat)
    requires p + 3 <= |buf|
  {
    (buf[p + 1] as int) * 256 + buf[p + 2] as int
  }

  /** The bytes c stand at p. */
  ghost predicate CodeAt(buf: seq<Byte>, p: nat, c: seq<Byte>)
    ensures CodeAt(buf, p, c) ==> p + |c| <= |buf|
  {
    p + |c| <= |buf| && buf[p..p + |c|] == c
  }

  ghost predicate NodeAt(buf: seq<Byte>, p: nat, op: Byte, off: nat) {
    p + 3 <= |buf| && buf[p] == op && NextOff(buf, p) == off
  }

  lemma CodeAtSplit(buf: seq<Byte>, p: nat, a: seq<Byte>, b: seq<Byte>)
    ensures CodeAt(buf, p, a + b) <==> CodeAt(buf, p, a) && CodeAt(buf, p + |a|, b)
  {
    if p + |a| + |b| <= |buf| {
      var s := buf[p..p + |a| + |b|];
      assert s[..|a|] == buf[p..p + |a|] && s[|a|..] == buf[p + |a|..p + |a| + |b|];
      assert s == s[..|a|] + s[|a|..];
      assert (a + b)[..|a|] == a && (a + b)[|a|..] == b;
    }
  }

  lemma CodeAtParts(buf: seq<Byte>, p: nat, a: seq<Byte>, b: seq<Byte>)
    requires CodeAt(buf, p, a + b)
    ensures CodeAt(buf, p, a) && CodeAt(buf, p + |a|, b)
  {
    CodeAtSplit(buf, p, a, b);
  }

  lemma CodeAtFive(buf: seq<Byte>, p: nat, a: seq<Byte>, b: seq<Byte>, c: seq<Byte>, d: seq<Byte>, e: seq<Byte>)
    requires CodeAt(buf, p, a + (b + (c + (d + e))))
    ensures CodeAt(buf, p, a) && CodeAt(buf, p + |a|, b) && CodeAt(buf, p + |a| + |b|, c)
    ensures CodeAt(buf, p + |a| + |b| + |c|, d) && CodeAt(buf, p + |a| + |b| + |c| + |d|, e)
  {
    hide CodeAt;
    CodeAtParts(buf, p, a, b + (c + (d + e)));
    CodeAtParts(buf, p + |a|, b, c + (d + e));
    CodeAtParts(buf, p + |a| + |b|, c, d + e);
    CodeAtParts(buf, p + |a| + |b| + |c|, d, e);
  }

  lemma NodeDecodes(buf: seq<Byte>, p: nat, op: Byte, off: nat)
    requires CodeAt(buf, p, Node(op, off)) && off < 65536
    ensures NodeAt(buf, p, op, off)
  {
    var s := buf[p..p + 3];
    assert s[0] == buf[p] && s[1] == buf[p + 1] && s[2] == buf[p + 2];
  }

  lemma Assoc(a: seq<Byte>, b: seq<Byte>, c: seq<Byte>)
    ensures a + b + c == a + (b + c)
  {
  }

  // ---- code generation ----------------------------------------------------

  function Off(d: nat, t: nat): nat { if d <= t then 0 else d - t }

  function Text(ts: seq<Token>): (s: seq<Byte>)
    ensures |s| == |ts|
  {
    seq(|ts|, i requires 0 <= i < |ts| => LowByte(ts[i]))
  }

  /** OPEN+n and CLOSE+n for the group numbers the compiler hands out. */
  function OpenOp(n: nat): Byte { if n < NSUBEXP then OPEN + n else OPEN }
  function CloseOp(n: nat): Byte { if n < NSUBEXP then CLOSE + n else CLOSE }

  function AtomOp(a: Atom): Byte {
    match a
    case Bol => BOL
    case Eol => EOL
    case Any => ANY
    case WordStart => WORDSTART
    case WordEnd => WORDEND
    case AnyOf(_) => ANYOF
    case AnyBut(_) => ANYBUT
    case Exactly(_) => EXACTLY
    case Group(n, _) => OpenOp(n)
  }

  /** The NUL-terminated operand string of an atom. */
  function Operand(a: Atom): seq<Byte> {
    match a
    case AnyOf(body) => ClassSet(body) + [0]
    case AnyBut(body) => ClassSet(body) + [0]
    case Exactly(text) => Text(text) + [0]
    case _ => []
  }

  function AtomSize(a: Atom): (n: nat)
    ensures n >= 3
  {
    if a.Group? then 6 + AltsSize(a.alts) else 3 + |Operand(a)|
  }
  function PieceSize(p: Piece): (n: nat)
    ensures n >= 3
  {
    if !p.star then AtomSize(p.atom)
    else if Simple(p.atom) then 3 + AtomSize(p.atom)
    else 12 + AtomSize(p.atom)
  }
  function PiecesSize(b: Branch): nat
    decreases b, 0
  {
    match b
    case Nil => 0
    case Cons(p, rest) => PieceSize(p) + PiecesSize(rest)
  }
  /** An empty alternative is a NOTHING node. */
  function BodySize(b: Branch): (n: nat)
    ensures n >= 3
    decreases b, 1
  {
    if b.Nil? then 3 else PiecesSize(b)
  }
  function AltsSize(a: Alts): (n: nat)
    ensures n >= 6
  {
    match a
    case Last(b) => 3 + BodySize(b)
    case More(b, rest) => 3 + BodySize(b) + AltsSize(rest)
  }

  /** Offset of the node whose "next" field leaves the code. */
  function AtomTail(a: Atom): nat { if a.Group? then 3 + AltsSize(a.alts) else 0 }
  function PieceTail(p: Piece): nat {
    if !p.star then AtomTail(p.atom)
    else if Simple(p.atom) then 0
    else 9 + AtomSize(p.atom)
  }
  function PiecesTail(b: Branch): nat
    requires b.Cons?
  {
    if b.tail.Nil? then PieceTail(b.head) else PieceSize(b.head) + PiecesTail(b.tail)
  }
  function BodyTail(b: Branch): nat { if b.Nil? then 0 else PiecesTail(b) }

  function AtomCode(a: Atom, d: nat): (c: seq<Byte>)
    ensures |c| == AtomSize(a)
  {
    if a.Group? then
      Node(OpenOp(a.n), 3)
      + (AltsCode(a.alts, AltsSize(a.alts)) + Node(CloseOp(a.n), Off(d, 3 + AltsSize(a.alts))))
    else Node(AtomOp(a), d) + Operand(a)
  }
  function PieceCode(p: Piece, d: nat): (c: seq<Byte>)
    ensures |c| == PieceSize(p)
  {
    if !p.star then AtomCode(p.atom, d)
    else if Simple(p.atom) then Node(STAR, d) + AtomCode(p.atom, 0)
    else
      var n := AtomSize(p.atom);
      Node(BRANCH, n + 6)
      + (AtomCode(p.atom, n)
         + (Node(BACK, n + 3) + (Node(BRANCH, 3) + Node(NOTHING, Off(d, n + 9)))))
  }
  function PiecesCode(b: Branch, d: nat): (c: seq<Byte>)
    ensures |c| == PiecesSize(b)
    decreases b, 0
  {
    match b
    case Nil => []
    case Cons(p, rest) =>
      if rest.Nil? then PieceCode(p, d)
      else PieceCode(p, PieceSize(p)) + PiecesCode(rest, Off(d, PieceSize(p)))
  }
  function BodyCode(b: Branch, d: nat): (c: seq<Byte>)
    ensures |c| == BodySize(b)
    decreases b, 1
  {
    if b.Nil? then Node(NOTHING, d) else PiecesCode(b, d)
  }

  /** A chain of BRANCH nodes: the last one links to distance `last`, and the bodies
      link to distance `ender`, both measured from the start of the chain. */
  function ChainCode(a: Alts, last: nat, ender: nat): (c: seq<Byte>)
    ensures |c| == AltsSize(a)
    decreases a, 0
  {
    match a
    case Last(b) => Node(BRANCH, last) + BodyCode(b, Off(ender, 3))
    case More(b, rest) =>
      var n := 3 + BodySize(b);
      Node(BRANCH, n) + (BodyCode(b, Off(ender, 3)) + ChainCode(rest, Off(last, n), Off(ender, n)))
  }
  function AltsCode(a: Alts, ender: nat): (c: seq<Byte>)
    ensures |c| == AltsSize(a)
    decreases a, 1
  {
    ChainCode(a, ender, ender)
  }

  /** A whole program: magic byte, alternatives, END. */
  function ProgramCode(a: Alts): (c: seq<Byte>)
    ensures |c| == AltsSize(a) + 4
  {
    [MAGIC] + (AltsCode(a, AltsSize(a)) + Node(END, 0))
  }

  // ---- next-pointer chains ------------------------------------------------

  /** Where following "next" from p ends: the first node without a forward link. */
  function ChainEnd(buf: seq<Byte>, p: nat): (e: nat)
    ensures p <= e
    decreases |buf| - p
  {
    if p + 3 > |buf| || buf[p] == BACK || NextOff(buf, p) == 0 then p
    else ChainEnd(buf, p + NextOff(buf, p))
  }

  /** Offset of the last BRANCH node of a chain. */
  function LastBranch(a: Alts): nat {
    match a
    case Last(_) => 0
    case More(b, rest) => 3 + BodySize(b) + LastBranch(rest)
  }

  /** A link of 0 ends the chain at the forward node t; any other follows it. */
  ghost predicate ChainGoes(buf: seq<Byte>, p: nat, t: nat, d: nat) {
    if d == 0 then ChainEnd(buf, p) == p + t && p + t + 3 <= |buf| && buf[p + t] != BACK
    else ChainEnd(buf, p) == ChainEnd(buf, p + d)
  }

  lemma ChainStep(buf: seq<Byte>, p: nat, t0: nat, n: nat, t: nat, d: nat)
    requires 0 < n && ChainGoes(buf, p, t0, n) && ChainGoes(buf, p + n, t, d)
    ensures ChainGoes(buf, p, n + t, if d == 0 then 0 else n + d)
  {
  }

  lemma NodeChain(buf: seq<Byte>, p: nat, op: Byte, off: nat)
    requires CodeAt(buf, p, Node(op, off)) && off < 65536 && op != BACK
    ensures ChainGoes(buf, p, 0, off)
  {
    NodeDecodes(buf, p, op, off);
  }

  lemma BranchNodeChain(buf: seq<Byte>, p: nat, off: nat)
    requires CodeAt(buf, p, Node(BRANCH, off)) && off < 65536
    ensures ChainGoes(buf, p, 0, off)
  {
    NodeChain(buf, p, BRANCH, off);
  }

  lemma ChainCodeLast(b: Branch, last: nat, ender: nat)
    ensures ChainCode(Last(b), last, ender) == Node(BRANCH, last) + BodyCode(b, Off(ender, 3))
    ensures LastBranch(Last(b)) == 0
  {
  }

  lemma ChainCodeMore(b: Branch, rest: Alts, last: nat, ender: nat)
    requires last == 0 || AltsSize(More(b, rest)) <= last
    ensures var n := 3 + BodySize(b); var a := More(b, rest);
            && ChainCode(a, last, ender)
               == Node(BRANCH, n) + (BodyCode(b, Off(ender, 3)) + ChainCode(rest, Off(last, n), Off(ender, n)))
            && AltsSize(a) == n + AltsSize(rest) && LastBranch(a) == n + LastBranch(rest)
            && (Off(last, n) == if last == 0 then 0 else last - n)
            && (ender == 0 ==> Off(ender, n) == 0)
  {
  }

  lemma {:induction false} BranchesChain(buf: seq<Byte>, p: nat, a: Alts, last: nat, ender: nat)
    requires CodeAt(buf, p, ChainCode(a, last, ender)) && |buf| < 65536
    requires last == 0 || AltsSize(a) <= last < 65536
    ensures ChainGoes(buf, p, LastBranch(a), last)
    decreases a
  {
    hide *;
    match a
    case Last(b) =>
      ChainCodeLast(b, last, ender);
      CodeAtParts(buf, p, Node(BRANCH, last), BodyCode(b, Off(ender, 3)));
      BranchNodeChain(buf, p, last);
    case More(b, rest) =>
      ChainCodeMore(b, rest, last, ender);
      var n := 3 + BodySize(b);
      var body, more := BodyCode(b, Off(ender, 3)), ChainCode(rest, Off(last, n), Off(ender, n));
      CodeAtParts(buf, p, Node(BRANCH, n), body + more);
      CodeAtParts(buf, p + 3, body, more);
      BranchNodeChain(buf, p, n);
      BranchesChain(buf, p + n, rest, Off(last, n), Off(ender, n));
      ChainStep(buf, p, 0, n, LastBranch(rest), Off(last, n));
  }

  lemma GroupAt(buf: seq<Byte>, p: nat, n: nat, alts: Alts, d: nat)
    requires CodeAt(buf, p, AtomCode(Group(n, alts), d))
    ensures var m := AltsSize(alts);
            && CodeAt(buf, p, Node(OpenOp(n), 3))
            && CodeAt(buf, p + 3, ChainCode(alts, m, m))
            && CodeAt(buf, p + 3 + m, Node(CloseOp(n), Off(d, 3 + m)))
  {
    hide CodeAt, Node, ChainCode;
    var m := AltsSize(alts);
    var close := Node(CloseOp(n), Off(d, 3 + m));
    CodeAtParts(buf, p, Node(OpenOp(n), 3), AltsCode(alts, m) + close);
    CodeAtParts(buf, p + 3, AltsCode(alts, m), close);
  }

  lemma GroupChain(buf: seq<Byte>, p: nat, n: nat, alts: Alts, d: nat)
    requires CodeAt(buf, p, AtomCode(Group(n, alts), d)) && |buf| < 65536 && n < NSUBEXP
    requires d == 0 || 6 + AltsSize(alts) <= d < 65536
    ensures ChainGoes(buf, p, 3 + AltsSize(alts), d)
  {
    hide CodeAt, ChainGoes, AtomCode, ChainCode, AltsSize, LastBranch, Node;
    var m := AltsSize(alts);
    GroupAt(buf, p, n, alts, d);
    NodeChain(buf, p + 3 + m, CloseOp(n), Off(d, 3 + m));
    BranchesChain(buf, p + 3, alts, m, m);
    ChainStep(buf, p + 3, LastBranch(alts), m, 0, Off(d, 3 + m));
    NodeChain(buf, p, OpenOp(n), 3);
    ChainStep(buf, p, 0, 3, m, if d == 0 then 0 else d - 3);
  }

  lemma AtomChain(buf: seq<Byte>, p: nat, a: Atom, d: nat)
    requires CodeAt(buf, p, AtomCode(a, d)) && |buf| < 65536
    requires a.Group? ==> a.n < NSUBEXP
    requires d == 0 || AtomSize(a) <= d < 65536
    ensures ChainGoes(buf, p, AtomTail(a), d)
  {
    hide CodeAt, Node, NextOff, ChainEnd, AltsCode;
    if a.Group? {
      GroupChain(buf, p, a.n, a.alts, d);
    } else {
      CodeAtParts(buf, p, Node(AtomOp(a), d), Operand(a));
      NodeChain(buf, p, AtomOp(a), d);
    }
  }

  lemma ComplexStarAt(buf: seq<Byte>, p: nat, x: Atom, d: nat)
    requires !Simple(x)
    requires CodeAt(buf, p, PieceCode(Piece(x, true), d))
    ensures var n := AtomSize(x);
            && CodeAt(buf, p, Node(BRANCH, n + 6))
            && CodeAt(buf, p + 3, AtomCode(x, n))
            && CodeAt(buf, p + 3 + n, Node(BACK, n + 3))
            && CodeAt(buf, p + 6 + n, Node(BRANCH, 3))
            && CodeAt(buf, p + 9 + n, Node(NOTHING, Off(d, n + 9)))
  {
    hide *;
    StarCode(x, d);
    var n := AtomSize(x);
    CodeAtFive(buf, p, Node(BRANCH, n + 6), AtomCode(x, n), Node(BACK, n + 3), Node(BRANCH, 3),
               Node(NOTHING, Off(d, n + 9)));
  }

  lemma StarCode(x: Atom, d: nat)
    requires !Simple(x)
    ensures var n := AtomSize(x);
            PieceCode(Piece(x, true), d)
            == Node(BRANCH, n + 6)
                + (AtomCode(x, n) + (Node(BACK, n + 3) + (Node(BRANCH, 3) + Node(NOTHING, Off(d, n + 9)))))
  {
    hide AtomCode, Node, AtomSize;
  }

  lemma PieceChain(buf: seq<Byte>, p: nat, q: Piece, d: nat)
    requires CodeAt(buf, p, PieceCode(q, d)) && |buf| < 65536 && GoodPiece(q)
    requires d == 0 || PieceSize(q) <= d < 65536
    ensures ChainGoes(buf, p, PieceTail(q), d)
  {
    hide CodeAt, Node, NextOff, ChainGoes, AtomCode, GoodAtom, AtomWidth;
    if !q.star {
      GoodGroup(q.atom);
      AtomChain(buf, p, q.atom, d);
    } else if Simple(q.atom) {
      CodeAtParts(buf, p, Node(STAR, d), AtomCode(q.atom, 0));
      NodeChain(buf, p, STAR, d);
    } else {
      ComplexStarChain(buf, p, q.atom, d);
    }
  }

  lemma GoodGroup(a: Atom)
    ensures GoodAtom(a) && a.Group? ==> 1 <= a.n < NSUBEXP && GoodAlts(a.alts)
  {
  }

  lemma ComplexStarChain(buf: seq<Byte>, p: nat, x: Atom, d: nat)
    requires !Simple(x) && CodeAt(buf, p, PieceCode(Piece(x, true), d)) && |buf| < 65536
    requires d == 0 || 12 + AtomSize(x) <= d < 65536
    ensures ChainGoes(buf, p, 9 + AtomSize(x), d)
  {
    hide CodeAt, Node, NextOff, ChainGoes, AtomCode, PieceCode, AtomSize, ChainEnd;
    var n := AtomSize(x);
    ComplexStarAt(buf, p, x, d);
    BranchNodeChain(buf, p, n + 6);
    BranchNodeChain(buf, p + 6 + n, 3);
    NodeChain(buf, p + 9 + n, NOTHING, Off(d, n + 9));
    ChainStep(buf, p + 6 + n, 0, 3, 0, Off(d, n + 9));
    ChainStep(buf, p, 0, n + 6, 3, if d == 0 then 0 else d - n - 6);
  }

  lemma PiecesCodeUnfold(b: Branch, d: nat)
    requires b.Cons? && (d == 0 || PiecesSize(b) <= d)
    ensures var n := PieceSize(b.head);
            && PiecesSize(b) == n + PiecesSize(b.tail)
            && (if b.tail.Nil? then PiecesCode(b, d) == PieceCode(b.head, d) && PiecesTail(b) == PieceTail(b.head)
                else PiecesCode(b, d) == PieceCode(b.head, n) + PiecesCode(b.tail, Off(d, n))
                     && PiecesTail(b) == n + PiecesTail(b.tail))
            && Off(d, n) == (if d == 0 then 0 else d - n)
    ensures GoodBranch(b) <==> GoodPiece(b.head) && GoodBranch(b.tail)
    ensures b.tail.Cons? ==> PiecesSize(b.tail) >= 3
  {
  }

  lemma {:induction false} PiecesChain(buf: seq<Byte>, p: nat, b: Branch, d: nat)
    requires b.Cons? && CodeAt(buf, p, PiecesCode(b, d)) && |buf| < 65536 && GoodBranch(b)
    requires d == 0 || PiecesSize(b) <= d < 65536
    ensures ChainGoes(buf, p, PiecesTail(b), d)
    decreases b
  {
    hide *;
    var n := PieceSize(b.head);
    PiecesCodeUnfold(b, d);
    if b.tail.Nil? {
      PieceChain(buf, p, b.head, d);
    } else {
      CodeAtParts(buf, p, PieceCode(b.head, n), PiecesCode(b.tail, Off(d, n)));
      PieceChain(buf, p, b.head, n);
      PiecesChain(buf, p + n, b.tail, Off(d, n));
      ChainStep(buf, p, PieceTail(b.head), n, PiecesTail(b.tail), Off(d, n));
    }
  }

  lemma BodyChain(buf: seq<Byte>, p: nat, b: Branch, d: nat)
    requires CodeAt(buf, p, BodyCode(b, d)) && |buf| < 65536 && GoodBranch(b)
    requires d == 0 || BodySize(b) <= d < 65536
    ensures ChainGoes(buf, p, BodyTail(b), d)
  {
    if b.Nil? {
      NodeChain(buf, p, NOTHING, d);
    } else {
      PiecesChain(buf, p, b, d);
    }
  }

  // ---- patching -----------------------------------------------------------

  function SetNext(buf: seq<Byte>, t: nat, off: nat): (r: seq<Byte>)
    requires t + 3 <= |buf|
    ensures |r| == |buf|
  {
    buf[t + 1 := (off / 256) % 256][t + 2 := off % 256]
  }

  lemma SetNextIn(x: seq<Byte>, c: seq<Byte>, y: seq<Byte>, t: nat, off: nat)
    requires t + 3 <= |c|
    ensures SetNext(x + (c + y), |x| + t, off) == x + (SetNext(c, t, off) + y)
  {
    var l, r := SetNext(x + (c + y), |x| + t, off), x + (SetNext(c, t, off) + y);
    assert |l| == |r| && forall k | 0 <= k < |l| :: l[k] == r[k];
  }

  lemma SetNextNode(op: Byte, oldOff: nat, off: nat)
    ensures SetNext(Node(op, oldOff), 0, off) == Node(op, off)
  {
  }

  /** Patching the node t of x + Node + y. */
  lemma SetNextAt(x: seq<Byte>, op: Byte, y: seq<Byte>, off: nat)
    ensures SetNext(x + (Node(op, 0) + y), |x|, off) == x + (Node(op, off) + y)
  {
    SetNextIn(x, Node(op, 0), y, 0, off);
    SetNextNode(op, 0, off);
  }

  lemma SetNextHead(op: Byte, y: seq<Byte>, off: nat)
    ensures SetNext(Node(op, 0) + y, 0, off) == Node(op, off) + y
  {
    SetNextAt([], op, y, off);
    assert [] + (Node(op, 0) + y) == Node(op, 0) + y && [] + (Node(op, off) + y) == Node(op, off) + y;
  }

  lemma SetNextLast(x: seq<Byte>, op: Byte, off: nat)
    ensures SetNext(x + Node(op, 0), |x|, off) == x + Node(op, off)
  {
    SetNextAt(x, op, [], off);
    assert Node(op, 0) + [] == Node(op, 0) && Node(op, off) + [] == Node(op, off);
  }

  lemma AtomPatch(a: Atom, d: nat)
    requires AtomTail(a) < d
    ensures AtomTail(a) + 3 <= AtomSize(a)
    ensures SetNext(AtomCode(a, 0), AtomTail(a), d - AtomTail(a)) == AtomCode(a, d)
  {
    hide Node, SetNext;
    if a.Group? {
      var m := AltsSize(a.alts);
      var open, body := Node(OpenOp(a.n), 3), AltsCode(a.alts, m);
      SetNextLast(open + body, CloseOp(a.n), d - AtomTail(a));
      Assoc(open, body, Node(CloseOp(a.n), 0));
      Assoc(open, body, Node(CloseOp(a.n), d - AtomTail(a)));
    } else {
      SetNextHead(AtomOp(a), Operand(a), d);
    }
  }

  lemma PiecePatch(q: Piece, d: nat)
    requires PieceTail(q) < d
    ensures PieceTail(q) + 3 <= PieceSize(q)
    ensures SetNext(PieceCode(q, 0), PieceTail(q), d - PieceTail(q)) == PieceCode(q, d)
  {
    hide Node, SetNext, AtomCode;
    if !q.star {
      AtomPatch(q.atom, d);
    } else if Simple(q.atom) {
      SetNextHead(STAR, AtomCode(q.atom, 0), d);
    } else {
      var n := AtomSize(q.atom);
      var x := Node(BRANCH, n + 6) + (AtomCode(q.atom, n) + (Node(BACK, n + 3) + Node(BRANCH, 3)));
      ComplexStarCode(q.atom, 0);
      ComplexStarCode(q.atom, d);
      SetNextLast(x, NOTHING, d - PieceTail(q));
    }
  }

  lemma ComplexStarCode(a: Atom, d: nat)
    requires !Simple(a)
    ensures var n := AtomSize(a);
            var x := Node(BRANCH, n + 6) + (AtomCode(a, n) + (Node(BACK, n + 3) + Node(BRANCH, 3)));
            PieceCode(Piece(a, true), d) == x + Node(NOTHING, Off(d, n + 9))
  {
    hide Node, AtomCode, AtomSize;
    var n := AtomSize(a);
    var tail := Node(NOTHING, Off(d, n + 9));
    Assoc(Node(BRANCH, n + 6), AtomCode(a, n) + (Node(BACK, n + 3) + Node(BRANCH, 3)), tail);
    Assoc(AtomCode(a, n), Node(BACK, n + 3) + Node(BRANCH, 3), tail);
    Assoc(Node(BACK, n + 3), Node(BRANCH, 3), tail);
  }

  lemma {:induction false} PiecesPatch(b: Branch, d: nat)
    requires b.Cons? && PiecesTail(b) < d
    ensures PiecesTail(b) + 3 <= PiecesSize(b)
    ensures SetNext(PiecesCode(b, 0), PiecesTail(b), d - PiecesTail(b)) == PiecesCode(b, d)
  {
    hide Node, SetNext, PieceCode;
    PiecePatch(b.head, PieceTail(b.head) + d);
    if b.tail.Nil? {
      PiecePatch(b.head, d);
    } else {
      var n := PieceSize(b.head);
      PiecesPatch(b.tail, d - n);
      var x, c := PieceCode(b.head, n), PiecesCode(b.tail, 0);
      assert c + [] == c && PiecesCode(b.tail, d - n) + [] == PiecesCode(b.tail, d - n);
      SetNextIn(x, c, [], PiecesTail(b.tail), d - PiecesTail(b));
    }
  }

  lemma BodyPatch(b: Branch, d: nat)
    requires BodyTail(b) < d
    ensures BodyTail(b) + 3 <= BodySize(b)
    ensures SetNext(BodyCode(b, 0), BodyTail(b), d - BodyTail(b)) == BodyCode(b, d)
  {
    if b.Cons? { PiecesPatch(b, d); }
  }

  lemma {:induction false} ChainPatch(a: Alts, last: nat)
    requires LastBranch(a) < last
    ensures LastBranch(a) + 3 <= AltsSize(a)
    ensures SetNext(ChainCode(a, 0, 0), LastBranch(a), last - LastBranch(a)) == ChainCode(a, last, 0)
  {
    hide *;
    LastBranchFits(a);
    match a
    case Last(b) =>
      ChainCodeLast(b, 0, 0);
      ChainCodeLast(b, last, 0);
      SetNextHead(BRANCH, BodyCode(b, Off(0, 3)), last);
    case More(b, rest) =>
      ChainCodeMore(b, rest, 0, 0);
      ChainCodeMoreTo(b, rest, last);
      var n := 3 + BodySize(b);
      ChainPatch(rest, last - n);
      var h, body, c := Node(BRANCH, n), BodyCode(b, Off(0, 3)), ChainCode(rest, 0, 0);
      var c' := ChainCode(rest, last - n, 0);
      assert c + [] == c && c' + [] == c';
      Assoc(h, body, c);
      Assoc(h, body, c');
      SetNextIn(h + body, c, [], LastBranch(rest), last - LastBranch(a));
  }

  lemma {:induction false} LastBranchFits(a: Alts)
    ensures LastBranch(a) + 3 <= AltsSize(a)
  {
    if a.More? { LastBranchFits(a.others); }
  }

  lemma ChainCodeMoreTo(b: Branch, rest: Alts, last: nat)
    requires LastBranch(More(b, rest)) < last
    ensures var n := 3 + BodySize(b);
            && n <= last && LastBranch(rest) < last - n && Off(0, n) == 0
            && ChainCode(More(b, rest), last, 0)
               == Node(BRANCH, n) + (BodyCode(b, Off(0, 3)) + ChainCode(rest, last - n, 0))
  {
    hide BodyCode, Node, BodySize;
  }

  // ---- growing a sequence at its end --------------------------------------

  function Snoc(b: Branch, q: Piece): (r: Branch)
  {
    match b
    case Nil => Cons(q, Nil)
    case Cons(h, t) => Cons(h, Snoc(t, q))
  }

  function Append(b: Branch, c: Branch): (r: Branch)
  {
    match b
    case Nil => c
    case Cons(h, t) => Cons(h, Append(t, c))
  }

  lemma {:induction false} AppendSnoc(b: Branch, q: Piece, c: Branch)
    ensures Append(b, Cons(q, c)) == Append(Snoc(b, q), c)
  {
    if b.Cons? { AppendSnoc(b.tail, q, c); }
  }

  lemma {:induction false} AppendNil(b: Branch)
    ensures Append(b, Nil) == b
  {
    if b.Cons? { AppendNil(b.tail); }
  }

  /** Linking the last piece to the one appended after it. */
  lemma {:induction false} SnocCode(b: Branch, q: Piece, d: nat)
    requires b.Cons? && (d == 0 || PiecesSize(b) < d)
    ensures PiecesCode(Snoc(b, q), d) == PiecesCode(b, PiecesSize(b)) + PieceCode(q, Off(d, PiecesSize(b)))
    ensures PiecesSize(Snoc(b, q)) == PiecesSize(b) + PieceSize(q)
  {
    hide PieceCode;
    var n := PieceSize(b.head);
    if b.tail.Cons? {
      SnocCode(b.tail, q, Off(d, n));
      Assoc(PieceCode(b.head, n), PiecesCode(b.tail, PiecesSize(b.tail)), PieceCode(q, Off(d, PiecesSize(b))));
    }
  }

  lemma {:induction false} SnocFlags(b: Branch, q: Piece)
    ensures BranchWidth(Snoc(b, q)) <==> BranchWidth(b) || PieceWidth(q)
    ensures BranchSp(Snoc(b, q)) <==> if b.Nil? then PieceSp(q) else BranchSp(b)
    ensures GoodBranch(Snoc(b, q)) <==> GoodBranch(b) && GoodPiece(q)
    ensures Snoc(b, q).Cons?
  {
    if b.Cons? { SnocFlags(b.tail, q); }
  }

  lemma {:induction false} AppendSize(b: Branch, c: Branch)
    ensures PiecesSize(Append(b, c)) == PiecesSize(b) + PiecesSize(c)
  {
    if b.Cons? { AppendSize(b.tail, c); }
  }

  function SnocAlts(a: Alts, b: Branch): (r: Alts)
  {
    match a
    case Last(x) => More(x, Last(b))
    case More(x, rest) => More(x, SnocAlts(rest, b))
  }

  function AppendAlts(a: Alts, c: Alts): (r: Alts)
  {
    match a
    case Last(x) => More(x, c)
    case More(x, rest) => More(x, AppendAlts(rest, c))
  }

  lemma {:induction false} AppendSnocAlts(a: Alts, b: Branch, c: Alts)
    ensures AppendAlts(a, More(b, c)) == AppendAlts(SnocAlts(a, b), c)
    ensures AppendAlts(a, Last(b)) == SnocAlts(a, b)
  {
    if a.More? { AppendSnocAlts(a.others, b, c); }
  }

  lemma {:induction false} SnocAltsCode(a: Alts, b: Branch)
    ensures ChainCode(SnocAlts(a, b), 0, 0) == ChainCode(a, AltsSize(a), 0) + (Node(BRANCH, 0) + BodyCode(b, 0))
    ensures AltsSize(SnocAlts(a, b)) == AltsSize(a) + 3 + BodySize(b)
  {
    hide *;
    var more := Node(BRANCH, 0) + BodyCode(b, 0);
    SnocAltsUnfold(a, b);
    match a
    case Last(x) =>
      ChainCodeMore(x, Last(b), 0, 0);
      ChainCodeLast(b, 0, 0);
      ChainCodeLast(x, 3 + BodySize(x), 0);
      Assoc(Node(BRANCH, 3 + BodySize(x)), BodyCode(x, 0), more);
    case More(x, rest) =>
      SnocAltsCode(rest, b);
      var n := 3 + BodySize(x);
      ChainCodeMore(x, SnocAlts(rest, b), 0, 0);
      ChainCodeMore(x, rest, n + AltsSize(rest), 0);
      Assoc(BodyCode(x, 0), ChainCode(rest, AltsSize(rest), 0), more);
      Assoc(Node(BRANCH, n), BodyCode(x, 0) + ChainCode(rest, AltsSize(rest), 0), more);
  }

  lemma SnocAltsUnfold(a: Alts, b: Branch)
    ensures a.Last? ==> SnocAlts(a, b) == More(a.only, Last(b)) && AltsSize(a) == 3 + BodySize(a.only)
    ensures a.More? ==> SnocAlts(a, b) == More(a.first, SnocAlts(a.others, b))
                        && AltsSize(a) == 3 + BodySize(a.first) + AltsSize(a.others)
    ensures AltsSize(Last(b)) == 3 + BodySize(b)
    ensures Off(0, 3) == 0
  {
  }

  lemma {:induction false} SnocAltsFlags(a: Alts, b: Branch)
    ensures AltsWidth(SnocAlts(a, b)) <==> AltsWidth(a) && BranchWidth(b)
    ensures AltsSp(SnocAlts(a, b)) <==> AltsSp(a) || BranchSp(b)
    ensures GoodAlts(SnocAlts(a, b)) <==> GoodAlts(a) && GoodBranch(b)
  {
    if a.More? { SnocAltsFlags(a.others, b); }
  }

  lemma {:induction false} AppendAltsSize(a: Alts, c: Alts)
    ensures AltsSize(AppendAlts(a, c)) == AltsSize(a) + AltsSize(c)
  {
    if a.More? { AppendAltsSize(a.others, c); }
  }
}
