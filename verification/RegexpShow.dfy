/** Syntax trees written out again (src/regexp.c): the tree of a pattern is the one tree in
    normal form that, written out, gives the pattern. */
module RegexpShow {
  import opened RegexpSyntax

  function ShowAtom(a: Atom): seq<Token> {
    match a
    case Bol => [CARET]
    case Eol => [DOLLAR]
    case Any => [DOT]
    case WordStart => [LSHBRAC]
    case WordEnd => [RSHBRAC]
    case AnyOf(body) => [LSQBRAC] + body + [RSQBRAC]
    case AnyBut(body) => [LSQBRAC, CARET] + body + [RSQBRAC]
    case Exactly(text) => text
    case Group(_, alts) => [LBRAC] + ShowAlts(alts) + [RBRAC]
  }

  function ShowPiece(p: Piece): seq<Token> { ShowAtom(p.atom) + if p.star then [ASTERIX] else [] }

  function ShowBranch(b: Branch): seq<Token> {
    match b
    case Nil => []
    case Cons(p, rest) => ShowPiece(p) + ShowBranch(rest)
  }

  function ShowAlts(a: Alts): seq<Token> {
    match a
    case Last(b) => ShowBranch(b)
    case More(b, rest) => ShowBranch(b) + [OR_OP] + ShowAlts(rest)
  }

  /** Groups are numbered in the order of their opening parentheses; this is the next number. */
  function AtomNext(a: Atom, n: nat): nat { if a.Group? then AltsNext(a.alts, n + 1) else n }

  function BranchNext(b: Branch, n: nat): nat { if b.Nil? then n else BranchNext(b.tail, AtomNext(b.head.atom, n)) }

  function AltsNext(a: Alts, n: nat): nat {
    match a
    case Last(b) => BranchNext(b, n)
    case More(b, rest) => AltsNext(rest, BranchNext(b, n))
  }

  predicate Ordinary(t: Token) { !HasSpecial(t) && t != 0 }

  /** A bracket expression ends at the first closing bracket that is not its first token. */
  predicate ClassBody(body: seq<Token>) { GoodClass(body) && forall k | 1 <= k < |body| :: body[k] != RSQBRAC }

  predicate LooseLiteral(p: Piece) { p.atom.Exactly? && !p.star }

  /** Normal form, with n the number of the next group.  A literal is as long as it can be,
      so that no two stand side by side, but a star binds to one character only; and a
      negated bracket expression is not taken for one that begins with a caret. */
  predicate NormalAtom(a: Atom, n: nat) {
    match a
    case AnyOf(body) => ClassBody(body) && body[0] != CARET
    case AnyBut(body) => ClassBody(body)
    case Exactly(text) => text != [] && forall k | 0 <= k < |text| :: Ordinary(text[k])
    case Group(m, alts) => m == n < NSUBEXP && NormalAlts(alts, n + 1)
    case _ => true
  }

  predicate NormalPiece(p: Piece, n: nat) {
    && NormalAtom(p.atom, n)
    && (p.star ==> AtomWidth(p.atom) && (p.atom.Exactly? ==> |p.atom.text| == 1))
  }

  predicate NormalBranch(b: Branch, n: nat) {
    b.Cons? ==>
      && NormalPiece(b.head, n) && NormalBranch(b.tail, AtomNext(b.head.atom, n))
      && !(LooseLiteral(b.head) && b.tail.Cons? && LooseLiteral(b.tail.head))
  }

  predicate NormalAlts(a: Alts, n: nat) {
    match a
    case Last(b) => NormalBranch(b, n)
    case More(b, rest) => NormalBranch(b, n) && NormalAlts(rest, BranchNext(b, n))
  }

  // ---- what is parsed is in normal form, and written out gives what was parsed -------------

  lemma TokAt(ts: seq<Token>, i: nat, t: Token)
    requires Tok(ts, i) == t && t != 0
    ensures i < |ts| && ts[i] == t
  {
  }

  lemma Cat(ts: seq<Token>, i: nat, j: nat, k: nat)
    requires i <= j <= k <= |ts|
    ensures ts[i..k] == ts[i..j] + ts[j..k]
    ensures i + 1 == j ==> ts[i..j] == [ts[i]]
    ensures j + 1 == k ==> ts[j..k] == [ts[j]]
  {
  }

  lemma Between(ts: seq<Token>, i: nat, j: nat)
    requires i < j < |ts|
    ensures ts[i..j + 1] == [ts[i]] + ts[i + 1..j] + [ts[j]]
  {
  }

  lemma Around(ts: seq<Token>, i: nat, j: nat, k: nat)
    requires i <= j < k <= |ts|
    ensures ts[i..k] == ts[i..j] + [ts[j]] + ts[j + 1..k]
  {
  }

  lemma ClassShown(ts: seq<Token>, at: nat, npar: nat, negated: bool)
    requires at <= |ts|
    ensures var r := ParseClass(ts, at, npar, negated);
            r.Ok? ==> var body := ts[at..r.pos - 1];
                      && ts[at..r.pos] == body + [RSQBRAC] && r.npar == npar
                      && r.value == (if negated then AnyBut(body) else AnyOf(body))
                      && ClassBody(body) && body[0] == Tok(ts, at)
  {
    hide ClassBytes;
    var r := ParseClass(ts, at, npar, negated);
    if r.Ok? { assert ts[at..r.pos] == ts[at..r.pos - 1] + [ts[r.pos - 1]]; }
  }

  lemma ShowClass(ts: seq<Token>, pos: nat, npar: nat)
    requires pos < |ts| && ts[pos] == LSQBRAC
    ensures var r := ParseBracket(ts, pos + 1, npar);
            r.Ok? ==>
              && ts[pos..r.pos] == ShowAtom(r.value) && NormalAtom(r.value, npar)
              && r.npar == AtomNext(r.value, npar) && !r.value.Exactly?
  {
    hide ParseClass, ClassBody;
    var r := ParseBracket(ts, pos + 1, npar);
    if Tok(ts, pos + 1) == CARET {
      TokAt(ts, pos + 1, CARET);
      ClassShown(ts, pos + 2, npar, true);
      if r.Ok? { assert ts[pos..r.pos] == [ts[pos], ts[pos + 1]] + ts[pos + 2..r.pos]; }
    } else {
      ClassShown(ts, pos + 1, npar, false);
      if r.Ok? { assert ts[pos..r.pos] == [ts[pos]] + ts[pos + 1..r.pos]; }
    }
  }

  lemma {:induction false} AtomShown(ts: seq<Token>, pos: nat, npar: nat)
    requires pos < |ts|
    ensures var r := ParseAtom(ts, pos, npar);
            r.Ok? ==>
              && ts[pos..r.pos] == ShowAtom(r.value) && NormalAtom(r.value, npar)
              && r.npar == AtomNext(r.value, npar)
    decreases |ts| - pos, 0
  {
    hide ParseBracket, ParseAlts, LitLen;
    if ts[pos] == LSQBRAC {
      ShowClass(ts, pos, npar);
    } else if ts[pos] == LBRAC {
      if npar < NSUBEXP {
        AltsShown(ts, pos + 1, npar + 1);
        var r := ParseAlts(ts, pos + 1, npar + 1);
        if r.Ok? && Tok(ts, r.pos) == RBRAC {
          TokAt(ts, r.pos, RBRAC);
          Between(ts, pos, r.pos);
        }
      }
    }
  }

  lemma LiteralShown(ts: seq<Token>, pos: nat, npar: nat)
    requires pos < |ts|
    ensures var r := ParseAtom(ts, pos, npar);
            r.Ok? && r.value.Exactly? ==>
              r.pos == pos + LitLen(ts, pos) && |r.value.text| == LitLen(ts, pos) && Ordinary(ts[pos])
  {
    hide GoodClass, CloseBracket, ParseAlts, LitLen;
  }

  lemma StarredLiteral(ts: seq<Token>, pos: nat)
    requires pos <= |ts| && LitLen(ts, pos) > 0 && Tok(ts, pos + LitLen(ts, pos)) == ASTERIX
    ensures LitLen(ts, pos) == 1
  {
    hide LitRun;
  }

  /** After a literal without a star stands something else, or one character and its star. */
  lemma AfterLiteral(ts: seq<Token>, pos: nat)
    requires pos <= |ts| && LitLen(ts, pos) > 0
    ensures var e := pos + LitLen(ts, pos);
            && e <= |ts| && (e < |ts| && Ordinary(ts[e]) ==> LitLen(ts, e) == 1 && Tok(ts, e + 1) == ASTERIX)
  {
    hide LitRun;
  }

  lemma NoTwoLiterals(ts: seq<Token>, pos: nat, npar: nat, npar': nat)
    requires pos < |ts| && ParsePiece(ts, pos, npar).Ok? && LooseLiteral(ParsePiece(ts, pos, npar).value)
    requires ParsePiece(ts, pos, npar).pos < |ts|
    ensures var q := ParsePiece(ts, ParsePiece(ts, pos, npar).pos, npar'); q.Ok? ==> !LooseLiteral(q.value)
  {
    hide ParseAtom, LitLen, LitRun;
    LiteralShown(ts, pos, npar);
    AfterLiteral(ts, pos);
    LiteralShown(ts, ParsePiece(ts, pos, npar).pos, npar');
  }

  lemma {:induction false} PieceShown(ts: seq<Token>, pos: nat, npar: nat)
    requires pos < |ts|
    ensures var r := ParsePiece(ts, pos, npar);
            r.Ok? ==>
              && ts[pos..r.pos] == ShowPiece(r.value) && NormalPiece(r.value, npar)
              && r.npar == AtomNext(r.value.atom, npar)
    decreases |ts| - pos, 1
  {
    hide ParseAtom, LitLen;
    AtomShown(ts, pos, npar);
    LiteralShown(ts, pos, npar);
    var r := ParseAtom(ts, pos, npar);
    if r.Ok? && r.value.Exactly? && Tok(ts, r.pos) == ASTERIX { StarredLiteral(ts, pos); }
    if r.Ok? && Tok(ts, r.pos) == ASTERIX {
      TokAt(ts, r.pos, ASTERIX);
      Cat(ts, pos, r.pos, r.pos + 1);
    }
  }

  lemma {:induction false} BranchShown(ts: seq<Token>, pos: nat, npar: nat)
    requires pos <= |ts|
    ensures var r := ParseBranch(ts, pos, npar);
            r.Ok? ==>
              && ts[pos..r.pos] == ShowBranch(r.value) && NormalBranch(r.value, npar)
              && r.npar == BranchNext(r.value, npar)
    decreases |ts| - pos, 2
  {
    hide ParsePiece;
    if !EndsBranch(Tok(ts, pos)) {
      PieceShown(ts, pos, npar);
      var h := ParsePiece(ts, pos, npar);
      if h.Ok? {
        BranchShown(ts, h.pos, h.npar);
        var t := ParseBranch(ts, h.pos, h.npar);
        if t.Ok? { Cat(ts, pos, h.pos, t.pos); }
        if t.Ok? && t.value.Cons? && LooseLiteral(h.value) { NoTwoLiterals(ts, pos, npar, h.npar); }
      }
    }
  }

  lemma {:induction false} AltsShown(ts: seq<Token>, pos: nat, npar: nat)
    requires pos <= |ts|
    ensures var r := ParseAlts(ts, pos, npar);
            r.Ok? ==>
              && ts[pos..r.pos] == ShowAlts(r.value) && NormalAlts(r.value, npar)
              && r.npar == AltsNext(r.value, npar)
    decreases |ts| - pos, 3
  {
    hide ParseBranch;
    BranchShown(ts, pos, npar);
    var b := ParseBranch(ts, pos, npar);
    if b.Ok? && Tok(ts, b.pos) == OR_OP {
      TokAt(ts, b.pos, OR_OP);
      AltsShown(ts, b.pos + 1, b.npar);
      var r := ParseAlts(ts, b.pos + 1, b.npar);
      if r.Ok? { MoreShown(ts, pos, b.pos, r.pos, b.value, r.value); }
    }
  }

  lemma MoreShown(ts: seq<Token>, i: nat, j: nat, k: nat, b: Branch, rest: Alts)
    requires i <= j < k <= |ts| && ts[i..j] == ShowBranch(b) && ts[j] == OR_OP && ts[j + 1..k] == ShowAlts(rest)
    ensures ts[i..k] == ShowAlts(More(b, rest))
  {
    hide ShowBranch;
    Around(ts, i, j, k);
  }

  /** The whole pattern is the tree written out, and the tree is in normal form. */
  lemma PatternShown(ts: seq<Token>)
    requires GoodTokens(ts)
    ensures var r := ParsePattern(ts); r.Ok? ==> ts == ShowAlts(r.value) && NormalAlts(r.value, 1)
  {
    hide ParseAlts;
    AltsShown(ts, 0, 1);
    var r := ParseAlts(ts, 0, 1);
    if r.Ok? && Tok(ts, r.pos) == 0 {
      assert r.pos < |ts| ==> GoodToken(ts[r.pos]);
      assert ts[0..|ts|] == ts;
    }
  }

  // ---- what a tree in normal form gives when written out is parsed as that tree ------------

  /** The text t stands in ts at i. */
  predicate Shows(ts: seq<Token>, i: nat, t: seq<Token>) { i + |t| <= |ts| && ts[i..i + |t|] == t }

  lemma ShowsBoth(ts: seq<Token>, i: nat, t: seq<Token>, u: seq<Token>)
    requires Shows(ts, i, t + u)
    ensures Shows(ts, i, t) && Shows(ts, i + |t|, u)
  {
    var all := ts[i..i + |t| + |u|];
    assert all[..|t|] == t && all[|t|..] == u;
  }

  lemma ShowsOne(ts: seq<Token>, i: nat, t: Token)
    requires Shows(ts, i, [t])
    ensures i < |ts| && ts[i] == t
  {
    assert ts[i..i + 1][0] == t;
  }

  lemma ShowsHead(ts: seq<Token>, i: nat, t: seq<Token>)
    requires Shows(ts, i, t) && t != []
    ensures i < |ts| && ts[i] == t[0]
  {
    assert ts[i..i + |t|][0] == t[0];
  }

  /** What a piece can begin with. */
  lemma PieceHead(p: Piece, n: nat)
    requires NormalPiece(p, n)
    ensures ShowPiece(p) != [] && !EndsBranch(ShowPiece(p)[0]) && ShowPiece(p)[0] != ASTERIX
    ensures !p.atom.Exactly? ==> HasSpecial(ShowPiece(p)[0])
  {
    hide ShowAlts, NormalAlts, ClassBody;
    assert ShowAtom(p.atom) != [];
    assert ShowPiece(p)[0] == ShowAtom(p.atom)[0];
  }

  lemma ClassBack(ts: seq<Token>, at: nat, npar: nat, negated: bool, body: seq<Token>)
    requires at <= |ts| && Shows(ts, at, body + [RSQBRAC]) && ClassBody(body)
    ensures ParseClass(ts, at, npar, negated)
         == Ok(if negated then AnyBut(body) else AnyOf(body), at + |body| + 1, npar)
    ensures Tok(ts, at) == body[0]
  {
    hide ClassBytes;
    ShowsBoth(ts, at, body, [RSQBRAC]);
    ShowsOne(ts, at + |body|, RSQBRAC);
    ShowsHead(ts, at, body);
    var from := if Tok(ts, at) == RSQBRAC then at + 1 else at;
    forall k | from <= k < at + |body| ensures ts[k] != RSQBRAC {
      assert ts[at..at + |body|][k - at] == body[k - at];
    }
    assert CloseBracket(ts, from) == at + |body|;
  }

  lemma BracketBack(ts: seq<Token>, pos: nat, npar: nat, a: Atom)
    requires Shows(ts, pos, ShowAtom(a)) && NormalAtom(a, npar) && (a.AnyOf? || a.AnyBut?)
    ensures pos < |ts| && ts[pos] == LSQBRAC && ParseBracket(ts, pos + 1, npar) == Ok(a, pos + |ShowAtom(a)|, npar)
  {
    hide ClassBody, ParseClass;
    if a.AnyOf? {
      assert ShowAtom(a) == [LSQBRAC] + (a.body + [RSQBRAC]);
      ShowsBoth(ts, pos, [LSQBRAC], a.body + [RSQBRAC]);
      ShowsOne(ts, pos, LSQBRAC);
      ClassBack(ts, pos + 1, npar, false, a.body);
    } else {
      assert ShowAtom(a) == [LSQBRAC] + ([CARET] + (a.body + [RSQBRAC]));
      ShowsBoth(ts, pos, [LSQBRAC], [CARET] + (a.body + [RSQBRAC]));
      ShowsOne(ts, pos, LSQBRAC);
      ShowsBoth(ts, pos + 1, [CARET], a.body + [RSQBRAC]);
      ShowsOne(ts, pos + 1, CARET);
      ClassBack(ts, pos + 2, npar, true, a.body);
    }
  }

  /** How far a literal goes is settled by what follows it. */
  lemma LiteralBack(ts: seq<Token>, pos: nat, text: seq<Token>)
    requires Shows(ts, pos, text) && text != [] && forall k | 0 <= k < |text| :: Ordinary(text[k])
    ensures Ordinary(ts[pos])
    ensures var e := pos + |text|;
            && (!Ordinary(Tok(ts, e)) && (Tok(ts, e) == ASTERIX ==> |text| == 1) ==> LitLen(ts, pos) == |text|)
            && (Ordinary(Tok(ts, e)) && Tok(ts, e + 1) == ASTERIX ==> LitLen(ts, pos) == |text|)
  {
    forall k | pos <= k < pos + |text| ensures Ordinary(ts[k]) {
      assert ts[pos..pos + |text|][k - pos] == text[k - pos];
    }
  }

  ghost predicate LiteralEnds(ts: seq<Token>, pos: nat, a: Atom) {
    a.Exactly? ==> pos <= |ts| && LitLen(ts, pos) == |a.text|
  }

  lemma {:induction false} AtomBack(ts: seq<Token>, pos: nat, npar: nat, a: Atom)
    requires GoodTokens(ts) && Shows(ts, pos, ShowAtom(a)) && NormalAtom(a, npar) && LiteralEnds(ts, pos, a)
    ensures pos < |ts| && ParseAtom(ts, pos, npar) == Ok(a, pos + |ShowAtom(a)|, AtomNext(a, npar))
    decreases a, 1
  {
    hide LitLen, ParseBracket, ParseAlts, ClassBody, GoodTokens;
    if a.AnyOf? || a.AnyBut? {
      BracketBack(ts, pos, npar, a);
    } else if a.Exactly? {
      LiteralBack(ts, pos, a.text);
    } else if a.Group? {
      GroupBack(ts, pos, npar, a);
    } else {
      ShowsHead(ts, pos, ShowAtom(a));
    }
  }

  lemma {:induction false} GroupBack(ts: seq<Token>, pos: nat, npar: nat, a: Atom)
    requires GoodTokens(ts) && a.Group? && Shows(ts, pos, ShowAtom(a)) && NormalAtom(a, npar)
    ensures pos < |ts| && ts[pos] == LBRAC
    ensures ParseGroup(ts, pos + 1, npar) == Ok(a, pos + |ShowAtom(a)|, AtomNext(a, npar))
    decreases a, 0
  {
    hide ParseAlts, ShowAlts, NormalAlts, GoodTokens;
    var body := ShowAlts(a.alts);
    assert ShowAtom(a) == [LBRAC] + (body + [RBRAC]);
    ShowsBoth(ts, pos, [LBRAC], body + [RBRAC]);
    ShowsOne(ts, pos, LBRAC);
    ShowsBoth(ts, pos + 1, body, [RBRAC]);
    ShowsOne(ts, pos + 1 + |body|, RBRAC);
    AltsBack(ts, pos + 1, npar + 1, a.alts);
  }

  lemma {:induction false} PieceBack(ts: seq<Token>, pos: nat, npar: nat, p: Piece)
    requires GoodTokens(ts) && Shows(ts, pos, ShowPiece(p)) && NormalPiece(p, npar) && LiteralEnds(ts, pos, p.atom)
    requires Tok(ts, pos + |ShowPiece(p)|) != ASTERIX
    ensures pos < |ts| && ParsePiece(ts, pos, npar) == Ok(p, pos + |ShowPiece(p)|, AtomNext(p.atom, npar))
    decreases p
  {
    hide LitLen, ParseAtom, ShowAtom, NormalAtom, LiteralEnds, GoodTokens;
    var a := ShowAtom(p.atom);
    if p.star {
      ShowsBoth(ts, pos, a, [ASTERIX]);
      ShowsOne(ts, pos + |a|, ASTERIX);
    } else {
      assert a + [] == a;
    }
    AtomBack(ts, pos, npar, p.atom);
  }

  /** What the next piece of a branch begins with. */
  lemma NextPiece(ts: seq<Token>, e: nat, n: nat, b: Branch)
    requires b.Cons? && Shows(ts, e, ShowPiece(b.head)) && NormalPiece(b.head, n)
    ensures e < |ts| && !EndsBranch(ts[e]) && ts[e] != ASTERIX
    ensures !b.head.atom.Exactly? ==> HasSpecial(ts[e])
    ensures b.head.atom.Exactly? && b.head.star ==> Ordinary(ts[e]) && Tok(ts, e + 1) == ASTERIX
  {
    hide NormalAlts, ClassBody, ShowAlts;
    var p := b.head;
    PieceHead(p, n);
    ShowsHead(ts, e, ShowPiece(p));
    if p.atom.Exactly? && p.star {
      ShowsBoth(ts, e, p.atom.text, [ASTERIX]);
      ShowsOne(ts, e + 1, ASTERIX);
      LiteralBack(ts, e, p.atom.text);
    }
  }

  lemma LiteralCase(ts: seq<Token>, pos: nat, npar: nat, p: Piece)
    requires p.atom.Exactly? && Shows(ts, pos, ShowPiece(p)) && NormalPiece(p, npar)
    requires var e := pos + |ShowPiece(p)|;
             !p.star ==> Tok(ts, e) != ASTERIX && (Ordinary(Tok(ts, e)) ==> Tok(ts, e + 1) == ASTERIX)
    ensures LitLen(ts, pos) == |p.atom.text|
  {
    hide LitLen;
    var text := p.atom.text;
    if p.star {
      ShowsBoth(ts, pos, text, [ASTERIX]);
      ShowsOne(ts, pos + 1, ASTERIX);
    } else {
      assert text + [] == text;
    }
    LiteralBack(ts, pos, text);
  }

  /** In a branch in normal form every literal ends where the grammar ends it. */
  lemma LiteralInBranch(ts: seq<Token>, pos: nat, npar: nat, b: Branch)
    requires b.Cons? && Shows(ts, pos, ShowBranch(b)) && NormalBranch(b, npar)
    requires EndsBranch(Tok(ts, pos + |ShowBranch(b)|))
    ensures LiteralEnds(ts, pos, b.head.atom)
    ensures Shows(ts, pos, ShowPiece(b.head)) && Shows(ts, pos + |ShowPiece(b.head)|, ShowBranch(b.tail))
    ensures Tok(ts, pos + |ShowPiece(b.head)|) != ASTERIX
  {
    hide LitLen, ShowPiece, NormalPiece;
    var p, e := b.head, pos + |ShowPiece(b.head)|;
    ShowsBoth(ts, pos, ShowPiece(p), ShowBranch(b.tail));
    if b.tail.Cons? {
      ShowsBoth(ts, e, ShowPiece(b.tail.head), ShowBranch(b.tail.tail));
      NextPiece(ts, e, AtomNext(p.atom, npar), b.tail);
    }
    if p.atom.Exactly? { LiteralCase(ts, pos, npar, p); }
  }

  lemma {:induction false} BranchBack(ts: seq<Token>, pos: nat, npar: nat, b: Branch)
    requires GoodTokens(ts) && Shows(ts, pos, ShowBranch(b)) && NormalBranch(b, npar)
    requires EndsBranch(Tok(ts, pos + |ShowBranch(b)|))
    ensures ParseBranch(ts, pos, npar) == Ok(b, pos + |ShowBranch(b)|, BranchNext(b, npar))
    decreases b
  {
    hide GoodTokens, LiteralEnds, ParsePiece, ShowPiece, NormalPiece;
    if b.Cons? {
      LiteralInBranch(ts, pos, npar, b);
      PieceBack(ts, pos, npar, b.head);
      FirstToken(ts, pos, npar, b.head);
      BranchBack(ts, pos + |ShowPiece(b.head)|, AtomNext(b.head.atom, npar), b.tail);
    }
  }

  lemma FirstToken(ts: seq<Token>, pos: nat, npar: nat, p: Piece)
    requires Shows(ts, pos, ShowPiece(p)) && NormalPiece(p, npar)
    ensures !EndsBranch(Tok(ts, pos))
  {
    PieceHead(p, npar);
    ShowsHead(ts, pos, ShowPiece(p));
  }

  lemma {:induction false} AltsBack(ts: seq<Token>, pos: nat, npar: nat, a: Alts)
    requires GoodTokens(ts) && Shows(ts, pos, ShowAlts(a)) && NormalAlts(a, npar)
    requires var t := Tok(ts, pos + |ShowAlts(a)|); t == 0 || t == RBRAC
    ensures ParseAlts(ts, pos, npar) == Ok(a, pos + |ShowAlts(a)|, AltsNext(a, npar))
    decreases a
  {
    hide Shows, GoodTokens, ParseBranch, ShowBranch, NormalBranch;
    if a.More? {
      MoreShows(ts, pos, a);
      var e := pos + |ShowBranch(a.first)|;
      BranchBack(ts, pos, npar, a.first);
      AltsBack(ts, e + 1, BranchNext(a.first, npar), a.others);
    } else {
      BranchBack(ts, pos, npar, a.only);
    }
  }

  lemma MoreShows(ts: seq<Token>, pos: nat, a: Alts)
    requires a.More? && Shows(ts, pos, ShowAlts(a))
    ensures Shows(ts, pos, ShowBranch(a.first)) && Tok(ts, pos + |ShowBranch(a.first)|) == OR_OP
    ensures Shows(ts, pos + |ShowBranch(a.first)| + 1, ShowAlts(a.others))
    ensures |ShowAlts(a)| == |ShowBranch(a.first)| + 1 + |ShowAlts(a.others)|
  {
    hide ShowBranch;
    var b, rest := ShowBranch(a.first), ShowAlts(a.others);
    assert ShowAlts(a) == b + ([OR_OP] + rest);
    hide Shows, ShowAlts;
    ShowsBoth(ts, pos, b, [OR_OP] + rest);
    ShowsBoth(ts, pos + |b|, [OR_OP], rest);
    ShowsOne(ts, pos + |b|, OR_OP);
  }

  /** The tree of a pattern is the only tree in normal form that the pattern shows. */
  lemma OneTree(ts: seq<Token>, a: Alts)
    requires GoodTokens(ts)
    ensures ParsePattern(ts).Ok? && ParsePattern(ts).value == a <==> NormalAlts(a, 1) && ShowAlts(a) == ts
  {
    hide ParseAlts, NormalAlts, ShowAlts;
    PatternShown(ts);
    if NormalAlts(a, 1) && ShowAlts(a) == ts {
      assert ts[0..|ts|] == ts;
      AltsBack(ts, 0, 1, a);
    }
  }
}
