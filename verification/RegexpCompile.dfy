/** The two-pass compiler of src/regexp.c, writing bytecode in place.

    The same routines run twice.  While `sizing` (regcode == &regdummy) they only add
    up regsize; then they emit into an array of exactly that many bytes, relocating
    and patching what they already wrote.
 */
module RegexpCompile {
  import opened RegexpSyntax
  import opened RegexpCode

  /** A char* into the program: NULL, &regdummy, or an index. */
  datatype Ptr = Null | Dummy | Index(p: nat)

  datatype Flags = Flags(width: bool, simple: bool, spstart: bool)

  /** regtail is safe: the chain from p ends at a node that can be linked to v. */
  ghost predicate TailReady(buf: seq<Byte>, p: nat, v: nat) {
    var t := ChainEnd(buf, p);
    t + 3 <= |buf| && (if buf[t] == BACK then NextOff(buf, t) == 0 && v <= t else t <= v)
  }

  /** The effect of regtail. */
  ghost function TailPatched(buf: seq<Byte>, p: nat, v: nat): seq<Byte> {
    if !TailReady(buf, p, v) then buf
    else
      var t := ChainEnd(buf, p);
      SetNext(buf, t, if buf[t] == BACK then t - v else v - t)
  }

  // ---- regtail on code with an open tail ----------------------------------

  /** In x + c0 + y, linking the open tail of c0 to distance d turns c0 into c1. */
  lemma TailLink(x: seq<Byte>, c0: seq<Byte>, c1: seq<Byte>, y: seq<Byte>, p: nat, t: nat, d: nat)
    requires t + 3 <= |c0| && t <= d && c1 == SetNext(c0, t, d - t)
    requires p <= |x| && ChainGoes(x + (c0 + y), p, |x| - p + t, 0)
    ensures TailReady(x + (c0 + y), p, |x| + d)
    ensures TailPatched(x + (c0 + y), p, |x| + d) == x + (c1 + y)
  {
    SetNextIn(x, c0, y, t, d - t);
  }

  lemma CodeInside(x: seq<Byte>, c: seq<Byte>, y: seq<Byte>)
    ensures CodeAt(x + (c + y), |x|, c)
  {
    var b := x + (c + y);
    assert b[|x|..|x| + |c|] == c;
  }

  lemma AtomLink(x: seq<Byte>, a: Atom, y: seq<Byte>, d: nat)
    requires AtomSize(a) <= d < 65536 && |x| + AtomSize(a) + |y| < 65536 && GoodAtom(a)
    ensures var b := x + (AtomCode(a, 0) + y);
            TailReady(b, |x|, |x| + d) && TailPatched(b, |x|, |x| + d) == x + (AtomCode(a, d) + y)
  {
    hide AtomCode, CodeAt, ChainGoes, TailReady, TailPatched, SetNext;
    CodeInside(x, AtomCode(a, 0), y);
    AtomChain(x + (AtomCode(a, 0) + y), |x|, a, 0);
    AtomTailBound(a);
    AtomPatch(a, d);
    TailLink(x, AtomCode(a, 0), AtomCode(a, d), y, |x|, AtomTail(a), d);
  }

  lemma AtomTailBound(a: Atom)
    ensures AtomTail(a) + 3 <= AtomSize(a)
  {
  }

  lemma PieceTailBound(q: Piece)
    ensures PieceTail(q) + 3 <= PieceSize(q)
  {
  }

  lemma PieceLink(x: seq<Byte>, q: Piece, y: seq<Byte>, d: nat)
    requires PieceSize(q) <= d < 65536 && |x| + PieceSize(q) + |y| < 65536 && GoodPiece(q)
    ensures var b := x + (PieceCode(q, 0) + y);
            TailReady(b, |x|, |x| + d) && TailPatched(b, |x|, |x| + d) == x + (PieceCode(q, d) + y)
  {
    hide PieceCode, CodeAt, ChainGoes, TailReady, TailPatched, SetNext;
    CodeInside(x, PieceCode(q, 0), y);
    PieceChain(x + (PieceCode(q, 0) + y), |x|, q, 0);
    PieceTailBound(q);
    PiecePatch(q, d);
    TailLink(x, PieceCode(q, 0), PieceCode(q, d), y, |x|, PieceTail(q), d);
  }

  lemma {:induction false} PiecesTailBound(b: Branch)
    requires b.Cons?
    ensures PiecesTail(b) + 3 <= PiecesSize(b)
  {
    PieceTailBound(b.head);
    if b.tail.Cons? { PiecesTailBound(b.tail); }
  }

  lemma BodyLink(x: seq<Byte>, b: Branch, y: seq<Byte>, d: nat)
    requires BodySize(b) <= d < 65536 && |x| + BodySize(b) + |y| < 65536 && GoodBranch(b)
    ensures var buf := x + (BodyCode(b, 0) + y);
            TailReady(buf, |x|, |x| + d) && TailPatched(buf, |x|, |x| + d) == x + (BodyCode(b, d) + y)
  {
    if b.Cons? { PiecesTailBound(b); }
    assert BodyTail(b) + 3 <= BodySize(b);
    hide BodyCode, CodeAt, ChainGoes, TailReady, TailPatched, SetNext, BodySize, BodyTail;
    CodeInside(x, BodyCode(b, 0), y);
    BodyChain(x + (BodyCode(b, 0) + y), |x|, b, 0);
    BodyPatch(b, d);
    TailLink(x, BodyCode(b, 0), BodyCode(b, d), y, |x|, BodyTail(b), d);
  }

  lemma NodeLink(x: seq<Byte>, op: Byte, y: seq<Byte>, d: nat)
    requires op != BACK
    ensures var b := x + (Node(op, 0) + y);
            TailReady(b, |x|, |x| + d) && TailPatched(b, |x|, |x| + d) == x + (Node(op, d) + y)
  {
    hide Node, CodeAt, ChainGoes, TailReady, TailPatched, SetNext;
    CodeInside(x, Node(op, 0), y);
    NodeChain(x + (Node(op, 0) + y), |x|, op, 0);
    SetNextNode(op, 0, d);
    TailLink(x, Node(op, 0), Node(op, d), y, |x|, 0, d);
  }

  // ---- x* as BRANCH x BACK BRANCH NOTHING ---------------------------------

  /** The operand's tail is linked to the BACK node. */
  lemma StarStage1(base: seq<Byte>, x: Atom)
    requires GoodAtom(x) && |base| + AtomSize(x) + 6 < 65536
    ensures var n := AtomSize(x); var h := base + Node(BRANCH, 0);
            var b := h + (AtomCode(x, 0) + Node(BACK, 0));
            TailReady(b, |h|, |h| + n) && TailPatched(b, |h|, |h| + n) == h + (AtomCode(x, n) + Node(BACK, 0))
  {
    hide AtomCode, TailReady, TailPatched, Node, GoodAtom;
    AtomLink(base + Node(BRANCH, 0), x, Node(BACK, 0), AtomSize(x));
  }

  /** The BACK node is linked to the BRANCH node. */
  lemma StarStage2(base: seq<Byte>, x: Atom)
    requires GoodAtom(x) && |base| + AtomSize(x) + 6 < 65536
    ensures var n := AtomSize(x); var h := base + Node(BRANCH, 0);
            var b := h + (AtomCode(x, n) + Node(BACK, 0));
            TailReady(b, |h|, |base|) && TailPatched(b, |h|, |base|) == h + (AtomCode(x, n) + Node(BACK, n + 3))
  {
    var n := AtomSize(x);
    var h := base + Node(BRANCH, 0);
    var b := h + (AtomCode(x, n) + Node(BACK, 0));
    BackEnds(h + AtomCode(x, n));
    GoodGroup(x);
    hide AtomCode, AtomSize, Node, CodeAt;
    Assoc(h, AtomCode(x, n), Node(BACK, 0));
    Assoc(h, AtomCode(x, n), Node(BACK, n + 3));
    CodeInside(h, AtomCode(x, n), Node(BACK, 0));
    AtomChain(b, |h|, x, n);
    SetNextLast(h + AtomCode(x, n), BACK, n + 3);
  }

  lemma BackEnds(x: seq<Byte>)
    ensures var b := x + Node(BACK, 0); ChainEnd(b, |x|) == |x| && b[|x|] == BACK && NextOff(b, |x|) == 0
  {
  }

  /** The second BRANCH, reached through the first, is linked to its NOTHING. */
  lemma StarStage4(base: seq<Byte>, m: seq<Byte>)
    requires |base| + |m| + 9 < 65536
    ensures var x := base + (Node(BRANCH, |m| + 3) + m); var b := x + (Node(BRANCH, 0) + Node(NOTHING, 0));
            TailReady(b, |base|, |x| + 3) && TailPatched(b, |base|, |x| + 3) == x + (Node(BRANCH, 3) + Node(NOTHING, 0))
  {
    hide *;
    var head := Node(BRANCH, |m| + 3);
    var x, rest := base + (head + m), Node(BRANCH, 0) + Node(NOTHING, 0);
    var b := x + rest;
    assert b == base + (head + (m + rest)) by {
      Assoc(base, head + m, rest);
      Assoc(head, m, rest);
    }
    CodeInside(base, head, m + rest);
    BranchNodeChain(b, |base|, |m| + 3);
    CodeInside(x, Node(BRANCH, 0), Node(NOTHING, 0));
    BranchNodeChain(b, |x|, 0);
    ChainStep(b, |base|, 0, |m| + 3, 0, 0);
    SetNextNode(BRANCH, 0, 3);
    TailLink(x, Node(BRANCH, 0), Node(BRANCH, 3), Node(NOTHING, 0), |base|, 0, 3);
  }

  lemma HeadByte(base: seq<Byte>, y: seq<Byte>)
    ensures (base + Node(BRANCH, 0) + y)[|base|] == BRANCH
  {
  }

  lemma TextSnoc(ts: seq<Token>, i: nat, k: nat)
    requires i <= k <= |ts|
    ensures i == k ==> Text(ts[i..k]) == []
    ensures k < |ts| ==> Text(ts[i..k + 1]) == Text(ts[i..k]) + [LowByte(ts[k])]
  {
    if k < |ts| { assert ts[i..k + 1] == ts[i..k] + [ts[k]]; }
  }

  lemma WholeProgram(a: Alts)
    ensures [MAGIC] + RegCode(false, 1, a) == ProgramCode(a) && |RegCode(false, 1, a)| == AltsSize(a) + 3
  {
    hide AltsCode, AltsSize;
    RegCodeIs(false, 1, a);
  }

  lemma ClassAtom(body: seq<Token>)
    ensures AtomSize(AnyOf(body)) == AtomSize(AnyBut(body)) == 4 + |ClassSet(body)|
    ensures AtomCode(AnyOf(body), 0) == Node(ANYOF, 0) + (ClassSet(body) + [0])
    ensures AtomCode(AnyBut(body), 0) == Node(ANYBUT, 0) + (ClassSet(body) + [0])
  {
  }

  lemma PrependSize<T>(a: seq<T>, r: Option<seq<T>>)
    ensures Prepend(a, r).Some? <==> r.Some?
    ensures r.Some? ==> |Prepend(a, r).value| == |a| + |r.value|
  {
  }

  lemma PrependLast<T>(a: seq<T>)
    ensures Prepend(a, Some([])) == Some(a)
  {
    assert a + [] == a;
  }

  lemma ClassUnfold(body: seq<Token>, k: nat)
    requires k < |body| && (k == 0 ==> body[0] != MINUS)
    ensures var r := ClassBytes(body, k);
            if body[k] == MINUS && k + 1 < |body| then
              (if LowByte(body[k - 1]) > LowByte(body[k + 1]) then r.None?
               else r == Prepend(RangeBytes(LowByte(body[k - 1]), LowByte(body[k + 1])), ClassBytes(body, k + 2)))
            else r == Prepend([LowByte(body[k])], ClassBytes(body, k + 1))
    ensures LowByte(MINUS) == MINUS
  {
  }

  lemma PrependSizes(body: seq<Token>, k: nat)
    requires k < |body| && (k == 0 ==> body[0] != MINUS) && ClassBytes(body, k).Some?
    ensures var n := |ClassBytes(body, k).value|;
            if body[k] == MINUS && k + 1 < |body|
            then |RangeBytes(LowByte(body[k - 1]), LowByte(body[k + 1]))| <= n
            else 1 <= n
  {
  }

  lemma ClassEnds(body: seq<Token>)
    ensures ClassBytes(body, |body|) == Some([])
    ensures body != [] ==> ClassBytes(body, 0) == Prepend([LowByte(body[0])], ClassBytes(body, 1))
  {
  }

  /** The closing bracket is the first one that can close. */
  lemma InBody(ts: seq<Token>, at: nat, close: nat)
    requires at <= |ts| && GoodTokens(ts)
    requires close == CloseBracket(ts, if Tok(ts, at) == RSQBRAC then at + 1 else at)
    ensures at <= close <= |ts| && (close < |ts| ==> ts[close] == RSQBRAC && at < close)
    ensures forall k | at < k < close :: ts[k] != RSQBRAC
    ensures at < close ==> at < |ts|
    ensures at < |ts| && (Tok(ts, at) == RSQBRAC || Tok(ts, at) == MINUS) ==> at < close
    ensures at < close && ts[at] != RSQBRAC ==> forall k | at <= k < close :: ts[k] != RSQBRAC
    ensures forall k | 0 <= k < |ts| :: ts[k] != 0
  {
  }

  lemma PrependNil<T>(r: Option<seq<T>>)
    ensures Prepend([], r) == r
  {
    if r.Some? { assert [] + r.value == r.value; }
  }

  // ---- sequences of pieces and of alternatives ------------------------------

  ghost function Prefixed(done: Branch, r: Parsed<Branch>): Parsed<Branch> {
    match r
    case Fail => Fail
    case Ok(b, p, n) => Ok(Append(done, b), p, n)
  }

  lemma PrefixedNil(r: Parsed<Branch>)
    ensures Prefixed(Nil, r) == r
  {
  }

  /** The code of `done` ends in the still open code of its last piece. */
  ghost predicate LastPiece(done: Branch, pre: seq<Byte>, last: Piece) {
    && GoodPiece(last)
    && PiecesCode(done, 0) == pre + PieceCode(last, 0)
    && PiecesCode(done, PiecesSize(done)) == pre + PieceCode(last, PieceSize(last))
  }

  lemma SnocLast(done: Branch, q: Piece)
    requires GoodPiece(q)
    ensures LastPiece(Snoc(done, q), if done.Nil? then [] else PiecesCode(done, PiecesSize(done)), q)
    ensures PiecesSize(Snoc(done, q)) == PiecesSize(done) + PieceSize(q)
  {
    hide PieceCode, GoodPiece, PieceSize, PiecesCode, PiecesSize, Snoc;
    if done.Nil? {
      OnePieceLast(q);
    } else {
      var n := PiecesSize(done);
      SnocCode(done, q, 0);
      SnocCode(done, q, n + PieceSize(q));
      assert Off(0, n) == 0 && Off(n + PieceSize(q), n) == PieceSize(q);
    }
  }

  lemma OnePieceLast(q: Piece)
    requires GoodPiece(q)
    ensures LastPiece(Snoc(Nil, q), [], q) && PiecesSize(Snoc(Nil, q)) == PieceSize(q) && PiecesSize(Nil) == 0
  {
    hide PieceCode, GoodPiece, PieceSize;
    assert [] + PieceCode(q, 0) == PieceCode(q, 0);
    assert [] + PieceCode(q, PieceSize(q)) == PieceCode(q, PieceSize(q));
  }

  lemma OnePiece(q: Piece)
    ensures PiecesCode(Snoc(Nil, q), 0) == PieceCode(q, 0) && PiecesCode(Nil, 0) == []
  {
  }

  lemma ParsedPieceFits(ts: seq<Token>, pos: nat, npar: nat, done: Branch)
    requires pos <= |ts| && !EndsBranch(Tok(ts, pos)) && ParseBranch(ts, pos, npar).Ok?
    ensures var q := ParsePiece(ts, pos, npar); var all := Append(done, ParseBranch(ts, pos, npar).value);
            q.Ok? && PiecesSize(done) + PieceSize(q.value) <= BodySize(all)
  {
    var b := ParseBranch(ts, pos, npar).value;
    AppendSize(done, b);
    assert Append(done, b).Cons?;
  }

  lemma BranchDone(done: Branch, base: seq<Byte>)
    ensures Append(done, Nil) == done
    ensures done.Cons? ==> BodyCode(done, 0) == PiecesCode(done, 0)
    ensures done.Nil? ==> PiecesSize(done) == 0 && PiecesCode(done, 0) == [] && Node(BRANCH, 0) + [] == Node(BRANCH, 0)
  {
    AppendNil(done);
  }

  /** Linking the last piece of `done` to a new piece that follows it. */
  lemma PieceJoin(base: seq<Byte>, done: Branch, pre: seq<Byte>, last: Piece, q: Piece)
    requires done.Cons? && LastPiece(done, pre, last) && GoodPiece(q)
    requires |base| + 3 + PiecesSize(done) + PieceSize(q) < 65536
    ensures var h := base + Node(BRANCH, 0);
            var b := base + (Node(BRANCH, 0) + PiecesCode(done, 0)) + PieceCode(q, 0);
            var v := |h| + PiecesSize(done);
            && TailReady(b, |h| + |pre|, v)
            && TailPatched(b, |h| + |pre|, v) == base + (Node(BRANCH, 0) + PiecesCode(Snoc(done, q), 0))
  {
    hide Node, PiecesCode, PieceCode, PiecesSize, PieceSize, TailReady, TailPatched, GoodPiece;
    var h, c0, c1 := base + Node(BRANCH, 0), PieceCode(last, 0), PieceCode(last, PieceSize(last));
    var x, y := h + pre, PieceCode(q, 0);
    PieceLink(x, last, y, PieceSize(last));
    Assoc(base, Node(BRANCH, 0), pre + c0);
    Assoc(h, pre, c0);
    Assoc(x, c0, y);
    SnocCode(done, q, 0);
    Assoc(base, Node(BRANCH, 0), PiecesCode(Snoc(done, q), 0));
    Assoc(pre, c1, y);
    Assoc(h, pre, c1 + y);
  }

  ghost function PrefixedAlts(done: Alts, r: Parsed<Alts>): Parsed<Alts> {
    match r
    case Fail => Fail
    case Ok(a, p, n) => Ok(AppendAlts(done, a), p, n)
  }

  /** What precedes the alternatives: a linked OPEN node, or nothing at top level. */
  ghost function Header(paren: bool, parno: nat): (h: seq<Byte>)
    ensures |h| == if paren then 3 else 0
    ensures !paren ==> h == []
  {
    if paren then Node(OpenOp(parno), 3) else []
  }

  ghost function Ender(paren: bool, parno: nat): Byte { if paren then CloseOp(parno) else END }

  ghost function RegCode(paren: bool, parno: nat, a: Alts): seq<Byte> {
    Header(paren, parno) + (AltsCode(a, AltsSize(a)) + Node(Ender(paren, parno), 0))
  }

  lemma RegCodeIs(paren: bool, parno: nat, a: Alts)
    ensures paren ==> RegCode(paren, parno, a) == AtomCode(Group(parno, a), 0)
    ensures !paren ==> RegCode(paren, parno, a) == AltsCode(a, AltsSize(a)) + Node(END, 0)
    ensures |RegCode(paren, parno, a)| == (if paren then 6 else 3) + AltsSize(a)
  {
    hide AltsCode, Node, AltsSize;
    var c := AltsCode(a, AltsSize(a)) + Node(END, 0);
    assert [] + c == c;
  }

  lemma HeaderChain(base: seq<Byte>, paren: bool, parno: nat, a: Alts, y: seq<Byte>)
    requires parno < NSUBEXP && |base| + 3 + AltsSize(a) + |y| < 65536
    ensures var x := base + Header(paren, parno);
            ChainGoes(x + (ChainCode(a, 0, 0) + y), |base|, |x| - |base| + LastBranch(a), 0)
  {
    hide Node, ChainGoes, CodeAt, ChainCode, LastBranch, AltsSize;
    var h, c := Header(paren, parno), ChainCode(a, 0, 0);
    var x := base + h;
    var b := x + (c + y);
    CodeInside(x, c, y);
    BranchesChain(b, |x|, a, 0, 0);
    if paren {
      Assoc(base, h, c + y);
      CodeInside(base, h, c + y);
      NodeChain(b, |base|, OpenOp(parno), 3);
      ChainStep(b, |base|, 0, 3, LastBranch(a), 0);
    } else {
      assert base + [] == base;
    }
  }

  lemma {:induction false} LastBranchBound(a: Alts)
    ensures LastBranch(a) + 3 <= AltsSize(a)
  {
    if a.More? { LastBranchBound(a.others); }
  }

  /** Linking the last BRANCH to what follows the alternatives. */
  lemma AltsJoin(base: seq<Byte>, paren: bool, parno: nat, a: Alts, y: seq<Byte>)
    requires parno < NSUBEXP && |base| + 3 + AltsSize(a) + |y| < 65536
    ensures var h := Header(paren, parno); var b := base + (h + ChainCode(a, 0, 0)) + y;
            var v := |base| + |h| + AltsSize(a);
            && TailReady(b, |base|, v)
            && TailPatched(b, |base|, v) == base + (h + (ChainCode(a, AltsSize(a), 0) + y))
  {
    hide Node, ChainGoes, ChainCode, LastBranch, AltsSize, TailReady, TailPatched, SetNext, Header;
    var h, c0, c1 := Header(paren, parno), ChainCode(a, 0, 0), ChainCode(a, AltsSize(a), 0);
    var x := base + h;
    Assoc(base, h, c0);
    Assoc(x, c0, y);
    HeaderChain(base, paren, parno, a, y);
    LastBranchBound(a);
    ChainPatch(a, AltsSize(a));
    TailLink(x, c0, c1, y, |base|, LastBranch(a), AltsSize(a));
    Assoc(base, h, c1 + y);
  }

  // ---- tying the bodies of the alternatives to the closing node ---------------

  /** A chain of alternatives, linked to each other and to the closing node op, whose
      bodies are still open. */
  ghost function Untied(p: seq<Byte>, a: Alts, op: Byte): (c: seq<Byte>)
    ensures |c| == |p| + AltsSize(a) + 3
  {
    p + (ChainCode(a, AltsSize(a), 0) + Node(op, 0))
  }

  ghost function AllTied(p: seq<Byte>, a: Alts, op: Byte): seq<Byte> {
    p + (AltsCode(a, AltsSize(a)) + Node(op, 0))
  }

  lemma TieLast(p: seq<Byte>, f: Branch, op: Byte)
    requires GoodBranch(f) && |p| + 6 + BodySize(f) < 65536
    ensures var a := Last(f); var b := Untied(p, a, op); var v := |p| + AltsSize(a);
            && |p| + 3 <= |b| && b[|p|] == BRANCH
            && TailReady(b, |p| + 3, v) && TailPatched(b, |p| + 3, v) == AllTied(p, a, op)
  {
    hide BodyCode, TailReady, TailPatched, GoodBranch, ChainCode, BodySize, Node;
    var n := 3 + BodySize(f);
    var head, y := Node(BRANCH, n), Node(op, 0);
    assert head[0] == BRANCH by { NodeHead(BRANCH, n); }
    ChainCodeLast(f, n, 0);
    ChainCodeLast(f, n, n);
    assert Off(0, 3) == 0 && Off(n, 3) == n - 3;
    BodyLink(p + head, f, y, n - 3);
    TieRegroup(p, head, BodyCode(f, 0), y);
    TieRegroup(p, head, BodyCode(f, n - 3), y);
  }

  lemma TieMore(p: seq<Byte>, f: Branch, rest: Alts, op: Byte)
    requires GoodBranch(f) && |p| + 6 + BodySize(f) + AltsSize(rest) < 65536
    ensures var a := More(f, rest); var b := Untied(p, a, op); var v := |p| + AltsSize(a);
            var p' := p + (Node(BRANCH, 3 + BodySize(f)) + BodyCode(f, AltsSize(a) - 3));
            && |p| + 3 <= |b| && b[|p|] == BRANCH
            && TailReady(b, |p| + 3, v) && TailPatched(b, |p| + 3, v) == Untied(p', rest, op)
            && AllTied(p', rest, op) == AllTied(p, a, op)
  {
    hide BodyCode, TailReady, TailPatched, GoodBranch, BodySize, ChainCode, Node, AltsSize;
    var k, m := 3 + BodySize(f), AltsSize(rest);
    assert Node(BRANCH, k)[0] == BRANCH by { NodeHead(BRANCH, k); }
    var head, e := Node(BRANCH, k), Node(op, 0);
    var c0, c1 := ChainCode(rest, m, 0), ChainCode(rest, m, m);
    BodyLink(p + head, f, c0 + e, k + m - 3);
    MoreCode(f, rest);
    TieRegroup(p, head, BodyCode(f, 0), c0 + e);
    Assoc(head, BodyCode(f, 0) + c0, e);
    Assoc(BodyCode(f, 0), c0, e);
    var body := BodyCode(f, k + m - 3);
    TieRegroup(p, head, body, c0 + e);
    TieRegroup(p, head, body, c1 + e);
    Assoc(head, body + c1, e);
    Assoc(body, c1, e);
    Assoc(p, head + body, c0 + e);
    Assoc(p, head + body, c1 + e);
    Assoc(head, body, c0 + e);
    Assoc(head, body, c1 + e);
  }

  lemma MoreCode(f: Branch, rest: Alts)
    ensures var k, m := 3 + BodySize(f), AltsSize(rest); var a := More(f, rest);
            && AltsSize(a) == k + m
            && ChainCode(a, k + m, 0) == Node(BRANCH, k) + (BodyCode(f, 0) + ChainCode(rest, m, 0))
            && AltsCode(a, k + m) == Node(BRANCH, k) + (BodyCode(f, k + m - 3) + ChainCode(rest, m, m))
  {
    hide ChainCode, BodyCode, Node, BodySize;
    var k, m := 3 + BodySize(f), AltsSize(rest);
    ChainCodeMore(f, rest, k + m, 0);
    ChainCodeMore(f, rest, k + m, k + m);
    assert Off(0, 3) == 0 && Off(0, k) == 0 && Off(k + m, 3) == k + m - 3 && Off(k + m, k) == m;
  }

  lemma NodeHead(op: Byte, off: nat)
    ensures Node(op, off)[0] == op
  {
  }

  /** The opcode at the head, and moving the parentheses around it. */
  lemma TieRegroup(p: seq<Byte>, head: seq<Byte>, body: seq<Byte>, y: seq<Byte>)
    requires |head| == 3
    ensures p + (head + body + y) == p + head + (body + y)
    ensures p + (head + (body + y)) == p + head + (body + y)
    ensures (p + head + (body + y))[|p|] == head[0]
  {
  }

  /** Where the tying walk can be: at the OPEN node, at a BRANCH whose body is still
      open, at the closing node, or past it. */
  ghost predicate TieState(code: seq<Byte>, br: Ptr, p: seq<Byte>, rest: Option<Alts>, p0: seq<Byte>, alts: Alts,
                           op: Byte)
  {
    match rest
    case Some(a) =>
      && GoodAlts(a) && code == Untied(p, a, op) && AllTied(p, a, op) == AllTied(p0, alts, op)
      && |p| + AltsSize(a) == |p0| + AltsSize(alts) && |code| < 65536
      && br.Index?
      && (br.p == |p| || (br.p + 3 == |p| && NodeAt(code, br.p, code[br.p], 3)
                          && code[br.p] != BRANCH && code[br.p] != BACK))
    case None =>
      code == AllTied(p0, alts, op) && (br == Null || br == Index(|p0| + AltsSize(alts)))
  }

  /** The effect of regoptail(br, closing node). */
  ghost predicate OpTailed(before: seq<Byte>, after: seq<Byte>, q: nat, v: nat) {
    && q < |before|
    && (before[q] == BRANCH ==> TailReady(before, q + 3, v))
    && after == if before[q] == BRANCH then TailPatched(before, q + 3, v) else before
  }

  lemma TieWalk(code: seq<Byte>, q: nat, p: seq<Byte>, rest: Option<Alts>, p0: seq<Byte>, alts: Alts, op: Byte)
    requires TieState(code, Index(q), p, rest, p0, alts, op) && op != BRANCH
    ensures q + 3 <= |code|
    ensures code[q] == BRANCH ==> TailReady(code, q + 3, |p0| + AltsSize(alts))
  {
    hide TailReady, TailPatched, GoodAlts, Untied, AllTied, AltsSize, NextOff;
    match rest
    case Some(a) => TieOne(p, a, op);
    case None => EnderAt(p0, alts, op);
  }

  lemma TieOne(p: seq<Byte>, a: Alts, op: Byte)
    requires GoodAlts(a) && |p| + AltsSize(a) + 3 < 65536
    ensures var b := Untied(p, a, op);
            |p| + 3 <= |b| && b[|p|] == BRANCH && TailReady(b, |p| + 3, |p| + AltsSize(a))
  {
    hide TailReady, TailPatched, Untied, AllTied;
    match a
    case Last(f) => TieLast(p, f, op);
    case More(f, r) => TieMore(p, f, r, op);
  }

  lemma EnderAt(p: seq<Byte>, a: Alts, op: Byte)
    ensures var b := AllTied(p, a, op); NodeAt(b, |p| + AltsSize(a), op, 0) && |b| == |p| + AltsSize(a) + 3
  {
    hide AltsCode, AltsSize;
    var c := AltsCode(a, AltsSize(a));
    Assoc(p, c, Node(op, 0));
    var b := p + c + Node(op, 0);
    assert b[|p + c|..|p + c| + 3] == Node(op, 0);
    NodeDecodes(b, |p + c|, op, 0);
  }

  lemma TieEnd(code: seq<Byte>, p: seq<Byte>, rest: Option<Alts>, p0: seq<Byte>, alts: Alts, op: Byte)
    requires TieState(code, Null, p, rest, p0, alts, op)
    ensures code == AllTied(p0, alts, op)
  {
  }

  /** Following the link of q leads to the next state of the walk. */
  ghost predicate Follows(code: seq<Byte>, q: nat, p: seq<Byte>, rest: Option<Alts>, p0: seq<Byte>, alts: Alts,
                          op: Byte) {
    && q + 3 <= |code| && code[q] != BACK
    && TieState(code, if NextOff(code, q) == 0 then Null else Index(q + NextOff(code, q)), p, rest, p0, alts, op)
  }

  lemma TieAfter(before: seq<Byte>, after: seq<Byte>, q: nat, p: seq<Byte>, rest: Option<Alts>,
                 p0: seq<Byte>, alts: Alts, op: Byte) returns (p': seq<Byte>, rest': Option<Alts>)
    requires TieState(before, Index(q), p, rest, p0, alts, op) && op != BRANCH && op != BACK
    requires OpTailed(before, after, q, |p0| + AltsSize(alts))
    ensures Follows(after, q, p', rest', p0, alts, op)
  {
    hide TailReady, TailPatched, Untied, AllTied, GoodAlts, AltsSize;
    match rest
    case None =>
      EnderAt(p0, alts, op);
      p', rest' := p, None;
    case Some(a) =>
      TieOne(p, a, op);
      if q == |p| {
        p', rest' := TieAlt(after, p, a, p0, alts, op);
      } else {
        p', rest' := p, rest;
      }
  }

  lemma TieAlt(after: seq<Byte>, p: seq<Byte>, a: Alts, p0: seq<Byte>, alts: Alts, op: Byte)
    returns (p': seq<Byte>, rest': Option<Alts>)
    requires GoodAlts(a) && AllTied(p, a, op) == AllTied(p0, alts, op)
    requires |p| + AltsSize(a) == |p0| + AltsSize(alts) && |p| + AltsSize(a) + 3 < 65536
    requires TailReady(Untied(p, a, op), |p| + 3, |p| + AltsSize(a))
    requires after == TailPatched(Untied(p, a, op), |p| + 3, |p| + AltsSize(a))
    ensures Follows(after, |p|, p', rest', p0, alts, op)
  {
    hide TailReady, TailPatched, ChainCode, BodyCode, BodySize, GoodBranch;
    match a
    case Last(f) =>
      TieLast(p, f, op);
      p', rest' := p, None;
      var n := AltsSize(a);
      ChainCodeLast(f, n, n);
      var y := BodyCode(f, Off(n, 3));
      HeadNode(p, n, y, Node(op, 0));
    case More(f, r) =>
      TieMore(p, f, r, op);
      var k := 3 + BodySize(f);
      var y := BodyCode(f, AltsSize(a) - 3);
      p', rest' := p + (Node(BRANCH, k) + y), Some(r);
      HeadNode(p, k, y, ChainCode(r, AltsSize(r), 0) + Node(op, 0));
      Assoc(p, Node(BRANCH, k) + y, ChainCode(r, AltsSize(r), 0) + Node(op, 0));
  }

  lemma HeadNode(p: seq<Byte>, n: nat, y: seq<Byte>, z: seq<Byte>)
    requires n < 65536
    ensures NodeAt(p + (Node(BRANCH, n) + y + z), |p|, BRANCH, n)
  {
    hide Node;
    Assoc(Node(BRANCH, n), y, z);
    CodeInside(p, Node(BRANCH, n), y + z);
    NodeDecodes(p + (Node(BRANCH, n) + y + z), |p|, BRANCH, n);
  }

  /** The alternatives read so far and those still to be read. */
  ghost function Remaining(ts: seq<Token>, pos: nat, npar: nat, done: Alts): Parsed<Alts>
    requires pos <= |ts|
  {
    if Tok(ts, pos) == OR_OP then PrefixedAlts(done, ParseAlts(ts, pos + 1, npar)) else Ok(done, pos, npar)
  }

  lemma RemainingDone(ts: seq<Token>, pos: nat, npar: nat, done: Alts)
    requires pos <= |ts| && Tok(ts, pos) != OR_OP
    ensures Remaining(ts, pos, npar, done) == Ok(done, pos, npar)
  {
  }

  lemma RemainingStep(ts: seq<Token>, pos: nat, npar: nat, done: Alts)
    requires pos <= |ts| && Tok(ts, pos) == OR_OP
    ensures var b := ParseBranch(ts, pos + 1, npar);
            Remaining(ts, pos, npar, done)
            == if b.Fail? then Fail else Remaining(ts, b.pos, b.npar, SnocAlts(done, b.value))
  {
    var b := ParseBranch(ts, pos + 1, npar);
    if b.Ok? {
      var r := if Tok(ts, b.pos) == OR_OP then ParseAlts(ts, b.pos + 1, b.npar) else Fail;
      AppendSnocAlts(done, b.value, if r.Ok? then r.value else Last(b.value));
    }
  }

  lemma RemainingFirst(ts: seq<Token>, pos: nat, npar: nat)
    requires pos <= |ts|
    ensures var b := ParseBranch(ts, pos, npar);
            ParseAlts(ts, pos, npar) == if b.Fail? then Fail else Remaining(ts, b.pos, b.npar, Last(b.value))
  {
  }

  lemma RemainingFits(ts: seq<Token>, pos: nat, npar: nat, done: Alts)
    requires pos <= |ts| && Remaining(ts, pos, npar, done).Ok?
    ensures AltsSize(done) <= AltsSize(Remaining(ts, pos, npar, done).value)
  {
    if Tok(ts, pos) == OR_OP { AppendAltsSize(done, ParseAlts(ts, pos + 1, npar).value); }
  }

  lemma NextFits(ts: seq<Token>, pos: nat, npar: nat, done: Alts)
    requires pos <= |ts| && Tok(ts, pos) == OR_OP && Remaining(ts, pos, npar, done).Ok?
    ensures var b := ParseBranch(ts, pos + 1, npar);
            b.Ok? && AltsSize(done) + 3 + BodySize(b.value) <= AltsSize(Remaining(ts, pos, npar, done).value)
  {
    hide ParseBranch, ParseAlts, AltsSize, BodySize, Remaining;
    RemainingStep(ts, pos, npar, done);
    var b := ParseBranch(ts, pos + 1, npar);
    RemainingFits(ts, b.pos, b.npar, SnocAlts(done, b.value));
    SnocAltsCode(done, b.value);
  }

  lemma CloseReady(base: seq<Byte>, paren: bool, parno: nat, alts: Alts, code: seq<Byte>)
    requires parno < NSUBEXP && GoodAlts(alts) && |code| < 65536
    requires code == base + (Header(paren, parno) + (ChainCode(alts, AltsSize(alts), 0) + Node(Ender(paren, parno), 0)))
    ensures var p0 := base + Header(paren, parno);
            TieState(code, Index(|base|), p0, Some(alts), p0, alts, Ender(paren, parno))
  {
    hide ChainCode, AltsSize, GoodAlts, AllTied, Node;
    var h := Header(paren, parno);
    var c := ChainCode(alts, AltsSize(alts), 0) + Node(Ender(paren, parno), 0);
    Assoc(base, h, c);
    if paren {
      CodeInside(base, h, c);
      NodeDecodes(code, |base|, OpenOp(parno), 3);
    }
  }

  lemma FirstFits(ts: seq<Token>, pos: nat, npar: nat)
    requires pos <= |ts| && ParseAlts(ts, pos, npar).Ok?
    ensures var b := ParseBranch(ts, pos, npar);
            b.Ok? && 3 + BodySize(b.value) <= AltsSize(ParseAlts(ts, pos, npar).value)
  {
  }

  lemma OneAlt(b: Branch)
    ensures AltsWidth(Last(b)) == BranchWidth(b) && AltsSp(Last(b)) == BranchSp(b)
  {
  }

  /** Patterns regcomp compiles: they scan, they parse, and the program is small enough
      for 15-bit offsets. */
  ghost predicate Accepted(p: seq<Chr>, excompat: bool)
    requires Escaped(p)
  {
    && Tokens(p, excompat).Some?
    && ParsePattern(Tokens(p, excompat).value).Ok?
    && AltsSize(ParsePattern(Tokens(p, excompat).value).value) + 4 < MAXCODE
  }

  ghost function PatternTree(p: seq<Chr>, excompat: bool): Alts
    requires Escaped(p) && Accepted(p, excompat)
  {
    ParsePattern(Tokens(p, excompat).value).value
  }

  class Compiler {
    const exp2: seq<Token>
    var regparse: nat
    var regnpar: nat
    var regsize: nat
    var sizing: bool
    var regcode: nat
    var program: array<Byte>

    ghost predicate Valid()
      reads this, program
    {
      && GoodTokens(exp2)
      && regparse <= |exp2|
      && regcode <= program.Length < MAXCODE
    }

    ghost function Code(): (c: seq<Byte>)
      requires regcode <= program.Length
      reads this, program
      ensures |c| == regcode
    {
      program[..regcode]
    }

    /** Since the program was `base` and the size `n`, exactly `w` has been produced. */
    ghost predicate Out(base: seq<Byte>, n: nat, w: seq<Byte>)
      reads this, program
    {
      && regcode <= program.Length
      && (if sizing then regsize == n + |w| && Code() == base
          else regsize == n && Code() == base + w)
    }

    /** Room for n more bytes. */
    ghost predicate Room(n: nat)
      reads this, program
    {
      !sizing ==> regcode + n <= program.Length
    }

    constructor (ts: seq<Token>)
      requires GoodTokens(ts)
      ensures exp2 == ts && Valid() && sizing && regparse == 0 && regnpar == 1 && regsize == 0 && regcode == 0
      ensures fresh(program)
    {
      exp2 := ts;
      regparse, regnpar, regsize, sizing, regcode := 0, 1, 0, true, 0;
      program := new Byte[0];
    }

    /** Between the passes: the exact amount of space is allocated and scanning starts
        over. */
    method StartEmitting()
      requires Valid() && regsize < MAXCODE
      modifies this
      ensures Valid() && !sizing && regparse == 0 && regnpar == 1 && regcode == 0
      ensures fresh(program) && program.Length == regsize == old(regsize)
    {
      program := new Byte[regsize];
      regparse, regnpar, regcode, sizing := 0, 1, 0, false;
    }

    method RegC(b: Byte, ghost base: seq<Byte>, ghost n: nat, ghost w: seq<Byte>)
      requires Out(base, n, w) && Room(1)
      modifies this`regcode, this`regsize, program
      ensures Out(base, n, w + [b])
    {
      if !sizing {
        program[regcode] := b;
        regcode := regcode + 1;
      } else {
        regsize := regsize + 1;
      }
    }

    method RegNode(op: Byte) returns (ret: Ptr)
      requires regcode <= program.Length && Room(3)
      modifies this`regcode, this`regsize, program
      ensures Out(old(Code()), old(regsize), Node(op, 0))
      ensures ret == if sizing then Dummy else Index(old(regcode))
    {
      if sizing {
        regsize := regsize + 3;
        return Dummy;
      }
      ret := Index(regcode);
      program[regcode] := op;
      program[regcode + 1] := 0;
      program[regcode + 2] := 0;
      regcode := regcode + 3;
    }

    /** Relocates the operand three bytes up, from its last byte down, and puts an
        operator node in front of it. */
    method RegInsert(op: Byte, opnd: Ptr)
      requires regcode <= program.Length && Room(3)
      requires !sizing ==> opnd.Index? && opnd.p <= regcode
      modifies this`regcode, this`regsize, program
      ensures sizing ==> regsize == old(regsize) + 3 && regcode == old(regcode) && Code() == old(Code())
      ensures !sizing ==> regsize == old(regsize) && regcode == old(regcode) + 3 <= program.Length
      ensures !sizing ==> Code() == old(Code())[..opnd.p] + (Node(op, 0) + old(Code())[opnd.p..])
    {
      if sizing {
        regsize := regsize + 3;
        return;
      }
      var place := opnd.p;
      ghost var before := Code();
      MoveUp(place);
      ghost var high := program[place + 3..];
      assert high[..regcode - place] == program[place + 3..regcode + 3];
      PutNode(place, op);
      assert program[place + 3..regcode + 3] == high[..regcode - place];
      regcode := regcode + 3;
      assert before[..place] == old(program[..place]) && before[place..] == old(program[place..regcode]);
      InThree(Code(), place, place + 3);
      assert Code()[..place] == program[..place] && Code()[place..place + 3] == program[place..place + 3];
      assert Code()[place + 3..] == program[place + 3..regcode];
    }

    method PutNode(place: nat, op: Byte)
      requires place + 3 <= program.Length
      modifies program
      ensures program[..place] == old(program[..place]) && program[place..place + 3] == Node(op, 0)
      ensures program[place + 3..] == old(program[place + 3..])
    {
      program[place] := op;
      program[place + 1] := 0;
      program[place + 2] := 0;
    }

    method MoveUp(from: nat)
      requires from <= regcode && regcode + 3 <= program.Length
      modifies program
      ensures program[..from] == old(program[..from])
      ensures program[from + 3..regcode + 3] == old(program[from..regcode])
    {
      var src, dst := regcode, regcode + 3;
      while src > from
        invariant from <= src <= regcode && dst == src + 3
        invariant forall k | 0 <= k < dst :: program[k] == old(program[k])
        invariant forall k | dst <= k < regcode + 3 :: program[k] == old(program[k - 3])
      {
        dst, src := dst - 1, src - 1;
        program[dst] := program[src];
      }
    }

    /** reginsert in front of the operand w written last. */
    method InsertBefore(op: Byte, opnd: Ptr, ghost base: seq<Byte>, ghost n: nat, ghost w: seq<Byte>)
      requires Out(base, n, w) && Room(3)
      requires opnd == if sizing then Dummy else Index(|base|)
      modifies this`regcode, this`regsize, program
      ensures Out(base, n, Node(op, 0) + w)
    {
      hide Node;
      assert !sizing ==> Code()[..|base|] == base && Code()[|base|..] == w;
      RegInsert(op, opnd);
    }

    method RegNext(p: Ptr) returns (r: Ptr)
      requires !p.Null? && (p.Index? ==> p.p + 3 <= regcode <= program.Length)
      ensures p.Dummy? ==> r == Null
      ensures p.Index? && NextOff(Code(), p.p) == 0 ==> r == Null
      ensures p.Index? && NextOff(Code(), p.p) != 0 && program[p.p] != BACK ==> r == Index(p.p + NextOff(Code(), p.p))
      ensures p.Index? && NextOff(Code(), p.p) != 0 && program[p.p] == BACK && NextOff(Code(), p.p) <= p.p ==>
                r == Index(p.p - NextOff(Code(), p.p))
    {
      if p.Dummy? { return Null; }
      var offset := (program[p.p + 1] as int) * 256 + program[p.p + 2] as int;
      if offset == 0 { return Null; }
      if program[p.p] == BACK { return if p.p >= offset then Index(p.p - offset) else Null; }
      return Index(p.p + offset);
    }

    method RegTail(p: Ptr, val: Ptr)
      requires regcode <= program.Length
      requires !sizing ==> p.Index? && val.Index? && TailReady(Code(), p.p, val.p)
      modifies program
      ensures sizing ==> Code() == old(Code())
      ensures !sizing ==> Code() == TailPatched(old(Code()), p.p, val.p)
    {
      if sizing { return; }
      ghost var t := ChainEnd(Code(), p.p);
      var scan := p.p;
      while true
        invariant scan + 3 <= regcode && ChainEnd(Code(), scan) == t
        invariant Code() == old(Code())
        decreases regcode - scan
      {
        var temp := RegNext(Index(scan));
        if temp.Null? { break; }
        scan := temp.p;
      }
      assert scan == t;
      var offset := if program[scan] == BACK then scan - val.p else val.p - scan;
      program[scan + 1] := (offset / 256) % 256;
      program[scan + 2] := offset % 256;
      assert Code() == SetNext(old(Code()), t, offset);
    }

    method RegOpTail(p: Ptr, val: Ptr)
      requires regcode <= program.Length
      requires !sizing ==> p.Index? && val.Index? && p.p < regcode
      requires !sizing && program[p.p] == BRANCH ==> TailReady(Code(), p.p + 3, val.p)
      modifies program
      ensures sizing ==> Code() == old(Code())
      ensures !sizing ==> Code() == if old(program[p.p]) == BRANCH then TailPatched(old(Code()), p.p + 3, val.p)
                                    else old(Code())
    {
      if sizing || program[p.p] != BRANCH { return; }
      RegTail(Index(p.p + 3), val);
    }
  
    /** regpiece's x* over an operand that may take several characters: first
        BRANCH x BACK ... */
    method LoopHead(ret: Ptr, ghost base: seq<Byte>, ghost n0: nat, ghost x: Atom)
      requires Valid() && GoodAtom(x) && Room(6)
      requires Out(base, n0, AtomCode(x, 0))
      requires ret == if sizing then Dummy else Index(|base|)
      modifies this`regcode, this`regsize, program
      ensures Valid()
      ensures Out(base, n0, Node(BRANCH, 0) + (AtomCode(x, AtomSize(x)) + Node(BACK, 0)))
    {
      hide AtomCode, Node, AtomSize, TailReady, TailPatched, GoodAtom, GoodTokens;
      ghost var n := AtomSize(x);
      ghost var h := base + Node(BRANCH, 0);
      InsertBefore(BRANCH, ret, base, n0, AtomCode(x, 0));
      var t := RegNode(BACK);
      if !sizing {
        Assoc(base, Node(BRANCH, 0), AtomCode(x, 0));
        Assoc(h, AtomCode(x, 0), Node(BACK, 0));
        StarStage1(base, x);
        HeadByte(base, AtomCode(x, 0) + Node(BACK, 0));
      }
      RegOpTail(ret, t);
      Assoc(base, Node(BRANCH, 0), AtomCode(x, n) + Node(BACK, 0));
    }

    /** ... with the loop closed ... */
    method LoopBack(ret: Ptr, ghost base: seq<Byte>, ghost n0: nat, ghost x: Atom)
      requires Valid() && GoodAtom(x) && Room(6)
      requires Out(base, n0, AtomCode(x, 0))
      requires ret == if sizing then Dummy else Index(|base|)
      modifies this`regcode, this`regsize, program
      ensures Valid()
      ensures Out(base, n0, Node(BRANCH, 0) + (AtomCode(x, AtomSize(x)) + Node(BACK, AtomSize(x) + 3)))
    {
      hide AtomCode, Node, AtomSize, TailReady, TailPatched, GoodAtom, GoodTokens;
      ghost var n := AtomSize(x);
      LoopHead(ret, base, n0, x);
      if !sizing {
        Assoc(base, Node(BRANCH, 0), AtomCode(x, n) + Node(BACK, 0));
        StarStage2(base, x);
        HeadByte(base, AtomCode(x, n) + Node(BACK, 0));
      }
      RegOpTail(ret, ret);
      Assoc(base, Node(BRANCH, 0), AtomCode(x, n) + Node(BACK, n + 3));
    }

    /** ... then the alternative that leaves the loop. */
    method LoopExit(ret: Ptr, ghost base: seq<Byte>, ghost n0: nat, ghost m: seq<Byte>)
      requires Valid() && Room(6)
      requires Out(base, n0, Node(BRANCH, 0) + m)
      requires ret == if sizing then Dummy else Index(|base|)
      modifies this`regcode, this`regsize, program
      ensures Valid()
      ensures Out(base, n0, Node(BRANCH, |m| + 3) + (m + (Node(BRANCH, 3) + Node(NOTHING, 0))))
    {
      hide Node, TailReady, TailPatched, GoodTokens;
      var t := RegNode(BRANCH);
      if !sizing {
        Assoc(base, Node(BRANCH, 0) + m, Node(BRANCH, 0));
        Assoc(Node(BRANCH, 0), m, Node(BRANCH, 0));
        NodeLink(base, BRANCH, m + Node(BRANCH, 0), |m| + 3);
      }
      RegTail(ret, t);
      t := RegNode(NOTHING);
      ghost var head, tail := Node(BRANCH, |m| + 3), Node(BRANCH, 3) + Node(NOTHING, 0);
      if !sizing {
        Assoc(head, m, Node(BRANCH, 0));
        Assoc(base, head + m, Node(BRANCH, 0));
        Assoc(base + (head + m), Node(BRANCH, 0), Node(NOTHING, 0));
        StarStage4(base, m);
      }
      RegTail(ret, t);
      if !sizing {
        Assoc(base, head + m, tail);
        Assoc(head, m, tail);
      }
    }

    method Loop(ret: Ptr, ghost base: seq<Byte>, ghost n0: nat, ghost x: Atom)
      requires Valid() && GoodAtom(x) && !Simple(x) && Room(12)
      requires Out(base, n0, AtomCode(x, 0))
      requires ret == if sizing then Dummy else Index(|base|)
      modifies this`regcode, this`regsize, program
      ensures Valid() && Out(base, n0, PieceCode(Piece(x, true), 0))
    {
      hide AtomCode, Node, AtomSize, GoodTokens, GoodAtom, Simple;
      ghost var n := AtomSize(x);
      LoopBack(ret, base, n0, x);
      LoopExit(ret, base, n0, AtomCode(x, n) + Node(BACK, n + 3));
      Assoc(AtomCode(x, n), Node(BACK, n + 3), Node(BRANCH, 3) + Node(NOTHING, 0));
    }
  
    // ---- regatom ------------------------------------------------------------

    /** What parsing r, and producing c, leaves behind. */
    twostate predicate Compiled<T>(ret: Ptr, r: Parsed<T>, c: seq<Byte>)
      reads this, program
    {
      && Valid() && program == old(program) && sizing == old(sizing)
      && (ret == Null <==> r.Fail?)
      && (r.Ok? ==>
            && old(regcode) <= old(program.Length)
            && regparse == r.pos && regnpar == r.npar
            && Out(old(Code()), old(regsize), c)
            && ret == if sizing then Dummy else Index(old(regcode)))
    }

    method ScanLiteral() returns (len: nat)
      requires regparse <= |exp2|
      ensures len == LitLen(exp2, regparse)
    {
      len := 0;
      while Tok(exp2, regparse + len) != 0 && !HasSpecial(Tok(exp2, regparse + len))
        invariant regparse + len <= |exp2|
        invariant LitRun(exp2, regparse) == len + LitRun(exp2, regparse + len)
        decreases |exp2| - regparse - len
      {
        len := len + 1;
      }
      if len > 1 && Tok(exp2, regparse + len) == ASTERIX { len := len - 1; }
    }

    method EmitText(len: nat, ghost base: seq<Byte>, ghost n0: nat, ghost w0: seq<Byte>)
      requires Out(base, n0, w0) && Room(len + 1) && regparse + len <= |exp2|
      modifies this`regparse, this`regcode, this`regsize, program
      ensures regparse == old(regparse) + len
      ensures Out(base, n0, w0 + (Text(exp2[old(regparse)..regparse]) + [0]))
    {
      hide Text;
      ghost var start, w := regparse, w0;
      TextSnoc(exp2, start, start);
      for k := 0 to len
        invariant regparse == start + k && regparse <= |exp2|
        invariant w == w0 + Text(exp2[start..regparse])
        invariant Out(base, n0, w) && Room(len - k + 1)
      {
        var t := exp2[regparse];
        RegC(LowByte(t), base, n0, w);
        TextSnoc(exp2, start, regparse);
        Assoc(w0, Text(exp2[start..regparse]), [LowByte(t)]);
        w := w + [LowByte(t)];
        regparse := regparse + 1;
      }
      RegC(0, base, n0, w);
      Assoc(w0, Text(exp2[start..regparse]), [0]);
    }

    /** A run of ordinary characters as one EXACTLY node. */
    method RegLiteral() returns (ret: Ptr, len: nat)
      requires Valid() && regparse < |exp2|
      requires LitLen(exp2, regparse) > 0 ==> Room(4 + LitLen(exp2, regparse))
      modifies this`regparse, this`regcode, this`regsize, program
      ensures len == LitLen(exp2, old(regparse))
      ensures var t := exp2[old(regparse)..old(regparse) + len];
              Compiled(ret, if len == 0 then Fail else Ok(Exactly(t), old(regparse) + len, regnpar),
                       if len == 0 then [] else AtomCode(Exactly(t), 0))
    {
      hide Node, GoodTokens, Text, LitLen;
      ghost var base, n0, start := Code(), regsize, regparse;
      len := ScanLiteral();
      if len == 0 { return Null, len; }
      ret := RegNode(EXACTLY);
      EmitText(len, base, n0, Node(EXACTLY, 0));
    }
  
    method EmitRange(lo: Byte, hi: Byte, ghost base: seq<Byte>, ghost n0: nat, ghost w0: seq<Byte>)
      requires Out(base, n0, w0) && Room(|RangeBytes(lo, hi)|)
      modifies this`regcode, this`regsize, program
      ensures Out(base, n0, w0 + RangeBytes(lo, hi))
    {
      ghost var w: seq<Byte>, done: seq<Byte> := w0, [];
      var c := lo as int + 1;
      assert [] + RangeBytes(lo, hi) == RangeBytes(lo, hi);
      while c <= hi
        invariant lo < c && (c <= hi + 1 || c == lo + 1)
        invariant RangeBytes(lo, hi) == done + RangeBytes(c - 1, hi)
        invariant w == w0 + done
        invariant Out(base, n0, w) && Room(|RangeBytes(c - 1, hi)|)
      {
        RegC(c, base, n0, w);
        Assoc(done, [c], RangeBytes(c, hi));
        Assoc(w0, done, [c]);
        done, w := done + [c], w + [c];
        c := c + 1;
      }
    }

    /** One character, range or trailing minus of a bracket body. */
    method ClassItem(ghost at: nat, ghost close: nat, ghost base: seq<Byte>, ghost n0: nat, ghost w: seq<Byte>)
      returns (ok: bool, ghost e: seq<Byte>)
      requires at <= regparse < close <= |exp2| && (at == regparse ==> exp2[at] != MINUS)
      requires close == |exp2| || exp2[close] == RSQBRAC
      requires forall k | regparse <= k < close :: exp2[k] != RSQBRAC && exp2[k] != 0
      requires Out(base, n0, w)
      requires var r := ClassBytes(exp2[at..close], regparse - at); !sizing ==> r.Some? && Room(|r.value|)
      modifies this`regparse, this`regcode, this`regsize, program
      ensures old(regparse) <= regparse <= close && regcode <= program.Length
      ensures var r := ClassBytes(exp2[at..close], old(regparse) - at);
              if ok then old(regparse) < regparse && Out(base, n0, w + e)
                         && r == Prepend(e, ClassBytes(exp2[at..close], regparse - at))
              else r.None?
    {
      hide ClassBytes, RangeBytes, Prepend, LowByte;
      ClassUnfold(exp2[at..close], regparse - at);
      if !sizing { PrependSizes(exp2[at..close], regparse - at); }
      ok := true;
      if exp2[regparse] == MINUS {
        regparse := regparse + 1;
        if Tok(exp2, regparse) == RSQBRAC || Tok(exp2, regparse) == 0 {
          e := [MINUS];
          RegC(MINUS, base, n0, w);
        } else {
          var lo, hi := LowByte(exp2[regparse - 2]), LowByte(exp2[regparse]);
          if lo > hi { return false, []; }
          e := RangeBytes(lo, hi);
          EmitRange(lo, hi, base, n0, w);
          regparse := regparse + 1;
        }
      } else {
        e := [LowByte(exp2[regparse])];
        RegC(LowByte(exp2[regparse]), base, n0, w);
        regparse := regparse + 1;
      }
    }

    /** The rest of a bracket body, after a first ] or - that stands for itself. */
    method ClassLoop(ghost at: nat, ghost close: nat, ghost base: seq<Byte>, ghost n0: nat, ghost w0: seq<Byte>,
                     ghost out0: seq<Byte>)
      returns (ok: bool, ghost out: seq<Byte>)
      requires at <= regparse <= close <= |exp2|
                 && (at == regparse ==> Tok(exp2, at) != RSQBRAC && Tok(exp2, at) != MINUS)
      requires close == |exp2| || exp2[close] == RSQBRAC
      requires forall k | regparse <= k < close :: exp2[k] != RSQBRAC && exp2[k] != 0
      requires Out(base, n0, w0 + out0)
      requires var all := ClassBytes(exp2[at..close], 0);
               && all == Prepend(out0, ClassBytes(exp2[at..close], regparse - at))
               && (!sizing ==> all.Some? && |base| + |w0| + |all.value| < program.Length)
      modifies this`regparse, this`regcode, this`regsize, program
      ensures old(regparse) <= regparse <= close && regcode <= program.Length
      ensures var all := ClassBytes(exp2[at..close], 0);
              if ok then regparse == close && all == Some(out) && Out(base, n0, w0 + out)
              else all.None?
    {
      hide ClassBytes, Prepend;
      ghost var body := exp2[at..close];
      ghost var all := ClassBytes(body, 0);
      out := out0;
      ok := true;
      while ok && Tok(exp2, regparse) != 0 && Tok(exp2, regparse) != RSQBRAC
        invariant old(regparse) <= regparse <= close && regcode <= program.Length
        invariant regparse == at ==> Tok(exp2, at) != RSQBRAC && Tok(exp2, at) != MINUS
        invariant if ok then all == Prepend(out, ClassBytes(body, regparse - at)) && Out(base, n0, w0 + out)
                  else all.None?
        decreases ok, close - regparse
      {
        ghost var e;
        ghost var rest := ClassBytes(body, regparse - at);
        PrependSize(out, rest);
        ok, e := ClassItem(at, close, base, n0, w0 + out);
        if ok {
          PrependTwice(out, e, ClassBytes(body, regparse - at));
          Assoc(w0, out, e);
          out := out + e;
        }
      }
      ClassEnds(body);
      PrependLast(out);
    }

    /** The inside of a bracket expression, up to and including the closing bracket. */
    method EmitClass(ghost close: nat, ghost base: seq<Byte>, ghost n0: nat, ghost w0: seq<Byte>) returns (ok: bool)
      requires Out(base, n0, w0) && regparse <= |exp2| && GoodTokens(exp2)
      requires close == CloseBracket(exp2, if Tok(exp2, regparse) == RSQBRAC then regparse + 1 else regparse)
      requires !sizing ==> close < |exp2| && GoodClass(exp2[regparse..close])
                           && Room(|ClassSet(exp2[regparse..close])| + 1)
      modifies this`regparse, this`regcode, this`regsize, program
      ensures regparse <= |exp2| && regcode <= program.Length
      ensures ok <==> close < |exp2| && GoodClass(exp2[old(regparse)..close])
      ensures ok ==> regparse == close + 1 && Out(base, n0, w0 + (ClassSet(exp2[old(regparse)..close]) + [0]))
    {
      hide ClassBytes, Prepend, GoodTokens, CloseBracket, LowByte;
      ghost var at := regparse;
      ghost var body := exp2[at..close];
      ghost var out: seq<Byte> := [];
      PrependNil(ClassBytes(body, 0));
      ClassEnds(body);
      InBody(exp2, at, close);
      assert w0 + [] == w0;
      if Tok(exp2, regparse) == RSQBRAC || Tok(exp2, regparse) == MINUS {
        RegC(LowByte(exp2[regparse]), base, n0, w0);
        out := [LowByte(exp2[regparse])];
        regparse := regparse + 1;
      }
      ok, out := ClassLoop(at, close, base, n0, w0, out);
      if !ok { return; }
      RegC(0, base, n0, w0 + out);
      Assoc(w0, out, [0]);
      if Tok(exp2, regparse) != RSQBRAC { return false; }
      regparse := regparse + 1;
    }

    /** The node of a bracket expression and its operand. */
    method ClassNode(neg: bool) returns (ret: Ptr)
      requires Valid()
      requires var r := ParseClass(exp2, regparse, regnpar, neg); !sizing ==> r.Ok? && Room(AtomSize(r.value))
      modifies this`regparse, this`regcode, this`regsize, program
      ensures var r := ParseClass(exp2, old(regparse), regnpar, neg);
              Compiled(ret, r, if r.Ok? then AtomCode(r.value, 0) else [])
    {
      hide Node, ClassSet, GoodClass, CloseBracket, AtomCode;
      ghost var at := regparse;
      ghost var close := CloseBracket(exp2, if Tok(exp2, at) == RSQBRAC then at + 1 else at);
      ClassAtom(exp2[at..close]);
      ghost var base, n0 := Code(), regsize;
      ret := RegNode(if neg then ANYBUT else ANYOF);
      var ok := EmitClass(close, base, n0, Node(if neg then ANYBUT else ANYOF, 0));
      if !ok { return Null; }
    }

    /** [...] */
    method RegClass() returns (ret: Ptr)
      requires Valid() && regparse < |exp2|
      requires var r := ParseBracket(exp2, regparse + 1, regnpar);
               !sizing ==> r.Ok? && Room(AtomSize(r.value))
      modifies this`regparse, this`regcode, this`regsize, program
      ensures var r := ParseBracket(exp2, old(regparse) + 1, regnpar);
              Compiled(ret, r, if r.Ok? then AtomCode(r.value, 0) else [])
    {
      hide GoodTokens, ParseClass, AtomCode, AtomSize;
      regparse := regparse + 1;
      if Tok(exp2, regparse) == CARET {
        regparse := regparse + 1;
        ret := ClassNode(true);
      } else {
        ret := ClassNode(false);
      }
    }

    /** ^ $ . \< \> : a single node. */
    method RegOne(op: Byte, ghost a: Atom) returns (ret: Ptr)
      requires Valid() && regparse < |exp2| && Room(3)
      requires AtomCode(a, 0) == Node(op, 0)
      modifies this`regparse, this`regcode, this`regsize, program
      ensures Compiled(ret, Ok(a, old(regparse) + 1, regnpar), AtomCode(a, 0))
    {
      hide Node, AtomCode;
      regparse := regparse + 1;
      ret := RegNode(op);
    }

    method RegParen() returns (ret: Ptr, flags: Flags)
      requires Valid() && regparse < |exp2| && regnpar >= 1
      requires var r := ParseGroup(exp2, regparse + 1, regnpar); !sizing ==> r.Ok? && Room(AtomSize(r.value))
      modifies this, program
      ensures var r := ParseGroup(exp2, old(regparse) + 1, old(regnpar));
              && Compiled(ret, r, if r.Ok? then AtomCode(r.value, 0) else [])
              && (r.Ok? ==> flags == Flags(AtomWidth(r.value), false, AtomSp(r.value)))
      decreases |exp2| - regparse, 0, 0
    {
      hide AtomCode, ParseGroup, ParseReg, AltsWidth, AltsSp, RegCode, AltsSize;
      regparse := regparse + 1;
      ghost var r := ParseReg(exp2, regparse, regnpar, true);
      if r.Ok? { RegCodeIs(true, regnpar, r.value); }
      ret, flags := Reg(true);
    }

    lemma SmallAtoms()
      ensures AtomCode(Bol, 0) == Node(BOL, 0) && AtomCode(Eol, 0) == Node(EOL, 0) && AtomCode(Any, 0) == Node(ANY, 0)
      ensures AtomCode(WordStart, 0) == Node(WORDSTART, 0) && AtomCode(WordEnd, 0) == Node(WORDEND, 0)
    {
    }

    /** regatom */
    method RegAtom() returns (ret: Ptr, flags: Flags)
      requires Valid() && regparse < |exp2| && regnpar >= 1
      requires var r := ParseAtom(exp2, regparse, regnpar); !sizing ==> r.Ok? && Room(AtomSize(r.value))
      modifies this, program
      ensures var r := ParseAtom(exp2, old(regparse), old(regnpar));
              && Compiled(ret, r, if r.Ok? then AtomCode(r.value, 0) else [])
              && (r.Ok? ==> flags == Flags(AtomWidth(r.value), Simple(r.value), AtomSp(r.value)))
      decreases |exp2| - regparse, 0
    {
      hide Node, GoodTokens, LitLen, AltsSize, ParseGroup, AtomCode, Compiled;
      SmallAtoms();
      var c := exp2[regparse];
      flags := Flags(false, false, false);
      if c == CARET {
        ret := RegOne(BOL, Bol);
      } else if c == DOLLAR {
        ret := RegOne(EOL, Eol);
      } else if c == LSHBRAC {
        ret := RegOne(WORDSTART, WordStart);
      } else if c == RSHBRAC {
        ret := RegOne(WORDEND, WordEnd);
      } else if c == DOT {
        ret := RegOne(ANY, Any);
        flags := Flags(true, true, false);
      } else if c == LSQBRAC {
        ret := RegClass();
        flags := Flags(true, true, false);
      } else if c == LBRAC {
        ret, flags := RegParen();
      } else {
        // A stray | ) * ] or a byte above 127 starts no run of ordinary characters.
        var len;
        ret, len := RegLiteral();
        flags := Flags(true, len == 1, false);
      }
    }

    /** regpiece */
    method RegPiece() returns (ret: Ptr, flags: Flags)
      requires Valid() && regparse < |exp2| && regnpar >= 1
      requires var r := ParsePiece(exp2, regparse, regnpar); !sizing ==> r.Ok? && Room(PieceSize(r.value))
      modifies this, program
      ensures var r := ParsePiece(exp2, old(regparse), old(regnpar));
              && Compiled(ret, r, if r.Ok? then PieceCode(r.value, 0) else [])
              && (r.Ok? ==> flags.width == PieceWidth(r.value) && flags.spstart == PieceSp(r.value))
      decreases |exp2| - regparse, 1
    {
      hide Node, GoodTokens, AtomCode, ParseAtom, AtomWidth, AtomSp, Simple, AtomSize;
      ghost var base, n0 := Code(), regsize;
      ghost var r := ParseAtom(exp2, regparse, regnpar);
      ParseAtomGood(exp2, regparse, regnpar);
      ret, flags := RegAtom();
      if ret.Null? { return; }
      if Tok(exp2, regparse) != ASTERIX { return; }
      if !flags.width { return Null, flags; }
      if flags.simple {
        InsertBefore(STAR, ret, base, n0, AtomCode(r.value, 0));
      } else {
        Loop(ret, base, n0, r.value);
      }
      flags := Flags(false, false, true);
      regparse := regparse + 1;
      if Tok(exp2, regparse) == ASTERIX { return Null, flags; }
    }

    /** One more piece of a branch, the previous one (at chain) linked to it. */
    method NextPiece(chain: Ptr, ghost base: seq<Byte>, ghost n0: nat, ghost done: Branch, ghost pre: seq<Byte>,
                     ghost last: Piece)
      returns (latest: Ptr, flags: Flags)
      requires Valid() && regnpar >= 1 && regparse < |exp2|
      requires var r := ParsePiece(exp2, regparse, regnpar); !sizing ==> r.Ok? && Room(PieceSize(r.value))
      requires Out(base, n0, Node(BRANCH, 0) + PiecesCode(done, 0))
      requires done.Nil? <==> chain == Null
      requires done.Cons? ==> LastPiece(done, pre, last) && chain == if sizing then Dummy else Index(|base| + 3 + |pre|)
      modifies this, program
      ensures Valid() && program == old(program) && sizing == old(sizing)
      ensures var r := ParsePiece(exp2, old(regparse), old(regnpar));
              && (latest == Null <==> r.Fail?)
              && (r.Ok? ==>
                    && regparse == r.pos && regnpar == r.npar && GoodPiece(r.value) && regnpar >= 1
                    && Out(base, n0, Node(BRANCH, 0) + PiecesCode(Snoc(done, r.value), 0))
                    && latest == (if sizing then Dummy else Index(|base| + 3 + PiecesSize(done)))
                    && flags.width == PieceWidth(r.value) && flags.spstart == PieceSp(r.value))
      decreases |exp2| - regparse, 2, 0
    {
      hide Node, GoodTokens, PieceCode, PiecesCode, PiecesSize, PieceSize, ParsePiece, PieceWidth, PieceSp,
           TailReady, TailPatched, LastPiece, GoodPiece;
      ghost var q := ParsePiece(exp2, regparse, regnpar);
      ParsePieceGood(exp2, regparse, regnpar);
      latest, flags := RegPiece();
      if latest.Null? { return; }
      SnocLast(done, q.value);
      if !chain.Null? {
        if !sizing { PieceJoin(base, done, pre, last, q.value); }
        RegTail(chain, latest);
      } else {
        OnePiece(q.value);
        assert Node(BRANCH, 0) + [] == Node(BRANCH, 0);
      }
    }

    /** regbranch */
    method RegBranch() returns (ret: Ptr, flags: Flags)
      requires Valid() && regnpar >= 1
      requires var r := ParseBranch(exp2, regparse, regnpar); !sizing ==> r.Ok? && Room(3 + BodySize(r.value))
      modifies this, program
      ensures var r := ParseBranch(exp2, old(regparse), old(regnpar));
              && Compiled(ret, r, if r.Ok? then Node(BRANCH, 0) + BodyCode(r.value, 0) else [])
              && (r.Ok? ==> flags.width == BranchWidth(r.value) && flags.spstart == BranchSp(r.value))
      decreases |exp2| - regparse, 2
    {
      hide Node, GoodTokens, PieceCode, PiecesCode, PiecesSize, PieceSize, ParsePiece, PieceWidth, PieceSp,
           LastPiece, GoodPiece;
      ghost var base, n0 := Code(), regsize;
      ghost var full := ParseBranch(exp2, regparse, regnpar);
      ghost var done, pre, last: Piece := Nil, [], Piece(Any, false);
      flags := Flags(false, false, false);
      ret := RegNode(BRANCH);
      var chain := Null;
      BranchDone(Nil, base);
      PrefixedNil(full);
      while !EndsBranch(Tok(exp2, regparse))
        invariant Valid() && program == old(program) && sizing == old(sizing) && regnpar >= 1
        invariant full == Prefixed(done, ParseBranch(exp2, regparse, regnpar))
        invariant Out(base, n0, Node(BRANCH, 0) + PiecesCode(done, 0))
        invariant !sizing ==> full.Ok? && |base| + 3 + BodySize(full.value) <= program.Length
        invariant done.Nil? <==> chain == Null
        invariant done.Cons? ==>
                    LastPiece(done, pre, last) && chain == if sizing then Dummy else Index(|base| + 3 + |pre|)
        invariant flags.width == BranchWidth(done) && flags.spstart == BranchSp(done)
        decreases |exp2| - regparse
      {
        ghost var q := ParsePiece(exp2, regparse, regnpar);
        if !sizing { ParsedPieceFits(exp2, regparse, regnpar, done); }
        var latest, f := NextPiece(chain, base, n0, done, pre, last);
        if latest.Null? { return Null, flags; }
        ghost var rest := ParseBranch(exp2, regparse, regnpar);
        if rest.Ok? { AppendSnoc(done, q.value, rest.value); }
        SnocLast(done, q.value);
        SnocFlags(done, q.value);
        flags := Flags(flags.width || f.width, false, if chain.Null? then f.spstart else flags.spstart);
        chain := latest;
        pre, last := if done.Nil? then [] else PiecesCode(done, PiecesSize(done)), q.value;
        BranchDone(done, base);
        done := Snoc(done, q.value);
      }
      BranchDone(done, base);
      if chain.Null? {
        var _ := RegNode(NOTHING);
      }
    }

    /** The end of reg(): every branch body is tied to the closing node.  The walk
        starts at the OPEN node, if there is one, and stops after the closing node. */
    method TieBranches(ret: Ptr, ender: Ptr, ghost p0: seq<Byte>, ghost alts: Alts, ghost op: Byte)
      requires Valid() && op != BRANCH && op != BACK
      requires sizing ==> ret == Dummy && ender == Dummy
      requires !sizing ==> ender == Index(|p0| + AltsSize(alts)) && GoodAlts(alts)
      requires !sizing ==> ret.Index? && TieState(Code(), ret, p0, Some(alts), p0, alts, op)
      modifies program
      ensures Valid() && Code() == if sizing then old(Code()) else AllTied(p0, alts, op)
    {
      hide TieState, TailReady, TailPatched, GoodTokens, AltsSize, AllTied, GoodAlts;
      ghost var p, rest := p0, Some(alts);
      var br := ret;
      while !br.Null?
        invariant Valid()
        invariant sizing ==> (br == Dummy || br == Null) && Code() == old(Code())
        invariant !sizing ==> !br.Dummy? && TieState(Code(), br, p, rest, p0, alts, op)
        decreases if br.Null? then 0 else if br.Dummy? then 1 else if br.p <= regcode then regcode - br.p + 1 else 0
      {
        if !sizing { TieWalk(Code(), br.p, p, rest, p0, alts, op); }
        ghost var before := Code();
        RegOpTail(br, ender);
        if !sizing { p, rest := TieAfter(before, Code(), br.p, p, rest, p0, alts, op); }
        br := RegNext(br);
      }
      assert !sizing ==> Code() == AllTied(p0, alts, op) by { if !sizing { TieEnd(Code(), p, rest, p0, alts, op); } }
    }

    /** The OPEN node, if any, and the first alternative. */
    method FirstBranch(paren: bool, parno: nat) returns (ret: Ptr, flags: Flags)
      requires Valid() && regnpar >= 1 && parno < NSUBEXP
      requires var r := ParseBranch(exp2, regparse, regnpar);
               !sizing ==> r.Ok? && Room((if paren then 6 else 3) + BodySize(r.value))
      modifies this, program
      ensures var r := ParseBranch(exp2, old(regparse), old(regnpar));
              && Compiled(ret, r, if r.Ok? then Header(paren, parno) + ChainCode(Last(r.value), 0, 0) else [])
              && (r.Ok? ==> flags.width == BranchWidth(r.value) && flags.spstart == BranchSp(r.value))
      decreases |exp2| - regparse, 3
    {
      hide Node, GoodTokens, BodyCode, ParseBranch, BranchWidth, BranchSp, BodySize, TailReady, TailPatched;
      ghost var base := Code();
      ghost var r := ParseBranch(exp2, regparse, regnpar);
      if paren {
        ret := RegNode(OpenOp(parno));
      } else {
        ret := Null;
      }
      var br;
      br, flags := RegBranch();
      if br.Null? { return Null, flags; }
      ghost var c := Node(BRANCH, 0) + BodyCode(r.value, 0);
      assert ChainCode(Last(r.value), 0, 0) == c;
      if !ret.Null? {
        if !sizing {
          Assoc(base, Node(OpenOp(parno), 0), c);
          NodeLink(base, OpenOp(parno), c, 3);
        }
        RegTail(ret, br);
      } else {
        ret := br;
        assert [] + c == c;
      }
    }

    /** One more alternative: BRANCH -> BRANCH. */
    method NextBranch(ret: Ptr, paren: bool, parno: nat, ghost base: seq<Byte>, ghost n0: nat, ghost done: Alts)
      returns (ok: bool, flags: Flags)
      requires Valid() && regnpar >= 1 && parno < NSUBEXP && regparse < |exp2|
      requires var r := ParseBranch(exp2, regparse + 1, regnpar); !sizing ==> r.Ok? && Room(3 + BodySize(r.value))
      requires Out(base, n0, Header(paren, parno) + ChainCode(done, 0, 0))
      requires ret == if sizing then Dummy else Index(|base|)
      modifies this, program
      ensures var r := ParseBranch(exp2, old(regparse) + 1, old(regnpar));
              && Valid() && program == old(program) && sizing == old(sizing)
              && (ok <==> r.Ok?)
              && (ok ==>
                    && regparse == r.pos && regnpar == r.npar
                    && Out(base, n0, Header(paren, parno) + ChainCode(SnocAlts(done, r.value), 0, 0))
                    && flags.width == BranchWidth(r.value) && flags.spstart == BranchSp(r.value))
      decreases |exp2| - regparse, 0
    {
      hide Node, GoodTokens, BodyCode, ParseBranch, BranchWidth, BranchSp, BodySize, TailReady, TailPatched, ChainCode,
           AltsSize, SnocAlts;
      regparse := regparse + 1;
      ghost var r := ParseBranch(exp2, regparse, regnpar);
      var br;
      br, flags := RegBranch();
      if br.Null? { return false, flags; }
      ghost var h, c := Header(paren, parno), Node(BRANCH, 0) + BodyCode(r.value, 0);
      if !sizing { AltsJoin(base, paren, parno, done, c); }
      RegTail(ret, br);
      SnocAltsCode(done, r.value);
      ok := true;
    }

    /** The closing node, linked from the last alternative and from every body. */
    method CloseBranches(ret: Ptr, paren: bool, parno: nat, ghost base: seq<Byte>, ghost n0: nat, ghost alts: Alts)
      requires Valid() && parno < NSUBEXP && GoodAlts(alts) && Room(3)
      requires Out(base, n0, Header(paren, parno) + ChainCode(alts, 0, 0))
      requires ret == if sizing then Dummy else Index(|base|)
      modifies this`regcode, this`regsize, program
      ensures Valid() && Out(base, n0, RegCode(paren, parno, alts))
    {
      hide Node, GoodTokens, TailReady, TailPatched, ChainCode, AltsSize, GoodAlts, AltsCode, Header;
      ghost var h, op := Header(paren, parno), Ender(paren, parno);
      var ender := RegNode(if paren then CloseOp(parno) else END);
      if !sizing { AltsJoin(base, paren, parno, alts, Node(op, 0)); }
      RegTail(ret, ender);
      if !sizing { CloseReady(base, paren, parno, alts, Code()); }
      TieBranches(ret, ender, base + h, alts, op);
      Assoc(base, h, AltsCode(alts, AltsSize(alts)) + Node(op, 0));
    }

    /** All the alternatives, linked to each other. */
    method RegAlts(paren: bool, parno: nat) returns (ret: Ptr, flags: Flags)
      requires Valid() && regnpar >= 1 && parno < NSUBEXP
      requires var r := ParseAlts(exp2, regparse, regnpar);
               !sizing ==> r.Ok? && Room((if paren then 3 else 0) + AltsSize(r.value))
      modifies this, program
      ensures var r := ParseAlts(exp2, old(regparse), old(regnpar));
              && Compiled(ret, r, if r.Ok? then Header(paren, parno) + ChainCode(r.value, 0, 0) else [])
              && (r.Ok? ==> flags == Flags(AltsWidth(r.value), false, AltsSp(r.value)))
      decreases |exp2| - regparse, 4
    {
      hide Node, GoodTokens, ChainCode, AltsSize, BodySize, ParseBranch, ParseAlts, AltsWidth, AltsSp, BranchWidth,
          BranchSp,
           Header, Remaining, SnocAlts;
      ghost var base, n0 := Code(), regsize;
      ghost var all := ParseAlts(exp2, regparse, regnpar);
      RemainingFirst(exp2, regparse, regnpar);
      ParseBranchGood(exp2, regparse, regnpar);
      ghost var first := ParseBranch(exp2, regparse, regnpar);
      if !sizing { FirstFits(exp2, regparse, regnpar); }
      ret, flags := FirstBranch(paren, parno);
      if ret.Null? { return; }
      ghost var done := Last(first.value);
      OneAlt(first.value);
      flags := Flags(flags.width, false, flags.spstart);
      while Tok(exp2, regparse) == OR_OP
        invariant Valid() && program == old(program) && sizing == old(sizing) && regnpar >= 1
        invariant all == Remaining(exp2, regparse, regnpar, done)
        invariant Out(base, n0, Header(paren, parno) + ChainCode(done, 0, 0))
        invariant !sizing ==> all.Ok? && |base| + |Header(paren, parno)| + AltsSize(all.value) <= program.Length
        invariant flags == Flags(AltsWidth(done), false, AltsSp(done))
        decreases |exp2| - regparse
      {
        ghost var q := ParseBranch(exp2, regparse + 1, regnpar);
        RemainingStep(exp2, regparse, regnpar, done);
        ParseBranchGood(exp2, regparse + 1, regnpar);
        if !sizing { NextFits(exp2, regparse, regnpar, done); }
        var ok, f := NextBranch(ret, paren, parno, base, n0, done);
        if !ok { return Null, flags; }
        SnocAltsFlags(done, q.value);
        flags := Flags(flags.width && f.width, false, flags.spstart || f.spstart);
        done := SnocAlts(done, q.value);
      }
      RemainingDone(exp2, regparse, regnpar, done);
    }

    /** reg: the main body or a parenthesised thing. */
    method Reg(paren: bool) returns (ret: Ptr, flags: Flags)
      requires Valid() && regnpar >= 1
      requires var r := ParseReg(exp2, regparse, regnpar, paren);
               !sizing ==> r.Ok? && Room((if paren then 6 else 3) + AltsSize(r.value))
      modifies this, program
      ensures var r := ParseReg(exp2, old(regparse), old(regnpar), paren);
              && Compiled(ret, r, if r.Ok? then RegCode(paren, old(regnpar), r.value) else [])
              && (r.Ok? ==> flags == Flags(AltsWidth(r.value), false, AltsSp(r.value)))
      decreases |exp2| - regparse, 5
    {
      hide Node, GoodTokens, ChainCode, AltsSize, ParseAlts, ParseGroup, ParsePattern, AltsWidth, AltsSp,
           Header, AltsCode, GoodAlts;
      flags := Flags(false, false, false);
      ghost var base, n0 := Code(), regsize;
      var parno := 0;
      if paren {
        if regnpar >= NSUBEXP { return Null, flags; }
        parno := regnpar;
        regnpar := regnpar + 1;
      }
      ghost var all := ParseAlts(exp2, regparse, regnpar);
      ParseAltsGood(exp2, regparse, regnpar);
      ret, flags := RegAlts(paren, parno);
      if ret.Null? { return; }
      CloseBranches(ret, paren, parno, base, n0, all.value);
      if paren {
        if Tok(exp2, regparse) != RBRAC { return Null, flags; }
        regparse := regparse + 1;
      } else if Tok(exp2, regparse) != 0 {
        return Null, flags;
      }
    }
  }

  // ---- regcomp ------------------------------------------------------------

  /** Both passes of regcomp: the size is found first, the array allocated, and the
      program emitted into it.  The result is the code of the parsed pattern and fills
      the allocation exactly. */
  method CompilePattern(p: seq<Chr>, excompat: bool) returns (r: Option<(array<Byte>, Flags)>)
    requires Escaped(p)
    ensures r.Some? <==> Accepted(p, excompat)
    ensures r.Some? ==>
              && var alts := PatternTree(p, excompat);
              && r.value.0[..] == ProgramCode(alts)
              && r.value.1 == Flags(AltsWidth(alts), false, AltsSp(alts))
              && fresh(r.value.0)
  {
    var toks := Tokenize(p, excompat);
    if toks.None? { return None; }
    TokensAreGood(p, excompat);
    r := CompileTokens(toks.value);
  }

  method CompileTokens(ts: seq<Token>) returns (r: Option<(array<Byte>, Flags)>)
    requires GoodTokens(ts)
    ensures var t := ParsePattern(ts);
            && (r.Some? <==> t.Ok? && AltsSize(t.value) + 4 < MAXCODE)
            && (r.Some? ==>
                  && r.value.0[..] == ProgramCode(t.value)
                  && r.value.1 == Flags(AltsWidth(t.value), false, AltsSp(t.value))
                  && fresh(r.value.0))
  {
    hide GoodTokens, AltsSize, AltsWidth, AltsSp, ParsePattern, AltsCode, Node, RegCode, ParseReg, ProgramCode;
    ghost var t := ParseReg(ts, 0, 1, false);
    if t.Ok? { WholeProgram(t.value); }
    var cp := new Compiler(ts);
    cp.RegC(MAGIC, [], 0, []);
    var ret, flags := cp.Reg(false);
    if ret.Null? || cp.regsize >= MAXCODE { return None; }
    cp.StartEmitting();
    cp.RegC(MAGIC, [], cp.regsize, []);
    ret, flags := cp.Reg(false);
    assert cp.program[..cp.regcode] == cp.program[..];
    return Some((cp.program, flags));
  }

  lemma InThree(s: seq<Byte>, i: nat, j: nat)
    requires i <= j <= |s|
    ensures s == s[..i] + (s[i..j] + s[j..])
  {
  }
}
