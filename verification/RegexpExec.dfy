/** regcomp's shortcuts and regexec.

    From the finished program regcomp digs out a character every match must start with,
    whether every match is anchored, and a string every match must contain.  regexec
    uses them to skip work; it is proved to return what trying every position in order
    would.
 */
module RegexpExec {
  import opened RegexpSyntax
  import opened RegexpCode
  import opened RegexpCompile
  import opened RegexpMeaning
  import opened RegexpMatch
  import opened RegexpShow
  import opened RegexpGroups

  datatype Regexp = Regexp(program: seq<Byte>, regstart: Byte, reganch: bool, regmust: Option<nat>, regmlen: nat)

  ghost predicate OccursAt(str: seq<Byte>, s: seq<Chr>, p: nat) {
    p + |str| <= |s| && s[p..p + |str|] == str
  }

  /** str occurs in s. */
  ghost predicate Occurs(str: seq<Byte>, s: seq<Chr>) {
    exists p: nat :: OccursAt(str, s, p)
  }

  ghost predicate StartsWith(a: Alts, c: Byte) {
    forall s: seq<Chr>, i: nat :: MatchesAt(a, s, i) ==> Ch(s, i) == c
  }

  ghost predicate Anchored(a: Alts) {
    forall s: seq<Chr>, i: nat :: MatchesAt(a, s, i) ==> i == 0
  }

  ghost predicate Contains(a: Alts, str: seq<Byte>) {
    forall s: seq<Chr>, i: nat :: MatchesAt(a, s, i) ==> Occurs(str, s)
  }

  /** r is the compiled form of a, and its shortcuts are right. */
  ghost predicate Describes(r: Regexp, a: Alts) {
    && GoodAlts(a) && r.program == ProgramCode(a) && |r.program| < MAXCODE
    && (r.regstart != 0 ==> StartsWith(a, r.regstart))
    && (r.reganch ==> Anchored(a))
    && (r.regmust.Some? ==> exists str :: MustString(r, a, str))
  }

  ghost predicate MustString(r: Regexp, a: Alts, str: seq<Byte>) {
    r.regmust.Some? && StrAt(r.program, r.regmust.value, str) && |str| == r.regmlen > 0 && Contains(a, str)
  }

  // ---- the program as a whole ---------------------------------------------

  lemma ProgramAt(a: Alts, prog: seq<Byte>)
    requires GoodAlts(a) && prog == ProgramCode(a) && |prog| < MAXCODE
    ensures At(prog, 1, Choice(a, Done)) && prog[0] == MAGIC
    ensures forall i: nat :: Live(Choice(a, Done), i, false)
  {
    hide ChainCode, AltsSize, Node, CodeAt, GoodAlts;
    var n := AltsSize(a);
    var c := AltsCode(a, n) + Node(END, 0);
    assert CodeAt(prog, 0, prog) by { WholeAt(prog); }
    CodeAtParts(prog, 0, [MAGIC], c);
    CodeAtParts(prog, 1, AltsCode(a, n), Node(END, 0));
    NodeDecodes(prog, 1 + n, END, 0);
    ChoiceAt(prog, 1, a, Done);
  }

  lemma WholeAt(prog: seq<Byte>)
    ensures CodeAt(prog, 0, prog)
  {
    assert prog[0..|prog|] == prog;
  }

  // ---- trying every position ----------------------------------------------

  /** Start position and match found by trying position i, i+1, .. in order. */
  ghost function InOrder(a: Alts, s: seq<Chr>, i: nat): Option<(nat, Hit)>
    requires i <= |s|
    decreases |s| - i
  {
    match First(Choice(a, Done), s, i)
    case Some(h) => Some((i, h))
    case None => if i == |s| then None else InOrder(a, s, i + 1)
  }

  /** That is the leftmost match, if there is any. */
  lemma {:induction false} InOrderLeftmost(a: Alts, s: seq<Chr>, i: nat)
    requires i <= |s|
    ensures InOrder(a, s, i).None? ==> forall p: nat | i <= p :: !MatchesAt(a, s, p)
    ensures InOrder(a, s, i).Some? ==>
              var n := InOrder(a, s, i).value;
              i <= n.0 <= |s| && AltsMatch(a, s, n.0, n.1.end) && forall q: nat | i <= q < n.0 :: !MatchesAt(a, s, q)
    decreases |s| - i
  {
    SearchDecides(a, s, i);
    if First(Choice(a, Done), s, i).None? {
      if i == |s| {
        forall p: nat | i <= p ensures !MatchesAt(a, s, p) {
          if MatchesAt(a, s, p) { MatchesInside(a, s, p); }
        }
      } else {
        InOrderLeftmost(a, s, i + 1);
      }
    }
  }

  lemma MatchesInside(a: Alts, s: seq<Chr>, i: nat)
    requires MatchesAt(a, s, i)
    ensures i <= |s|
  {
    var j: nat :| AltsMatch(a, s, i, j);
    AltsInText(a, s, i, j);
  }

  /** A position without a match can be skipped. */
  lemma SkipOne(a: Alts, s: seq<Chr>, i: nat)
    requires i < |s| && !MatchesAt(a, s, i)
    ensures InOrder(a, s, i) == InOrder(a, s, i + 1)
  {
    SearchDecides(a, s, i);
  }

  lemma NoMore(a: Alts, s: seq<Chr>, i: nat)
    requires i <= |s| && forall p: nat | i <= p :: !MatchesAt(a, s, p)
    ensures InOrder(a, s, i) == None
  {
    InOrderLeftmost(a, s, i);
    if InOrder(a, s, i).Some? {
      var (p, h) := InOrder(a, s, i).value;
      assert MatchesAt(a, s, p);
    }
  }

  // ---- regtry and regexec -------------------------------------------------

  /** startp and endp describe the match h starting at i. */
  ghost predicate Reported(startp: seq<int>, endp: seq<int>, i: nat, h: Hit) {
    |h.starts| == |h.ends| == NSUBEXP && startp == h.starts[0 := i] && endp == h.ends[0 := h.end]
  }

  method RegTry(m: Matcher, i: nat, ghost a: Alts) returns (ok: bool)
    requires m.Valid() && i <= |m.text| && At(m.prog, 1, Choice(a, Done)) && Live(Choice(a, Done), i, false)
    modifies m`reginput, m.startp, m.endp
    ensures m.Valid()
    ensures var r := First(Choice(a, Done), m.text, i);
            (ok <==> r.Some?) && (ok ==> Reported(m.startp[..], m.endp[..], i, r.value))
  {
    hide At, Live, First;
    m.reginput := i;
    m.ClearAll();
    ok := m.RegMatch(1, Choice(a, Done));
    if ok {
      m.startp[0] := i;
      m.endp[0] := m.reginput;
    }
  }

  /** "If there is a must-appear string, look for it." */
  method FindMust(prog: seq<Byte>, p: nat, len: nat, s: seq<Chr>, ghost str: seq<Byte>) returns (found: bool)
    requires StrAt(prog, p, str) && |str| == len > 0
    ensures found <==> Occurs(str, s)
  {
    hide StrAt;
    StrBytes(prog, p, str);
    assert prog[p + 0] == str[0] && str[..len] == str;
    var i := 0;
    while i < |s|
      invariant 0 <= i <= |s|
      invariant forall q: nat | q < i :: !OccursAt(str, s, q)
    {
      if s[i] == prog[p] {
        var eq := StrNEq(prog, p, s, i, len, str);
        if eq {
          assert OccursAt(str, s, i);
          return true;
        }
      } else {
        assert i + len <= |s| ==> s[i..i + len][0] != str[0];
      }
      i := i + 1;
    }
    assert forall q: nat :: !OccursAt(str, s, q);
    return false;
  }

  /** regexec */
  method RegExec(r: Regexp, s: seq<Chr>, ghost a: Alts) returns (ok: bool, startp: array<int>, endp: array<int>)
    requires Describes(r, a)
    ensures fresh(startp) && fresh(endp) && startp.Length == endp.Length == NSUBEXP
    ensures var n := InOrder(a, s, 0);
            (ok <==> n.Some?) && (ok ==> Reported(startp[..], endp[..], n.value.0, n.value.1))
  {
    hide ProgramCode, GoodAlts, StrAt, Reported, First;
    var m := new Matcher(r.program, s);
    startp, endp := m.startp, m.endp;
    ProgramAt(a, r.program);
    InOrderLeftmost(a, s, 0);
    if r.regmust.Some? {
      ghost var str :| MustString(r, a, str);
      var found := FindMust(r.program, r.regmust.value, r.regmlen, s, str);
      if !found {
        NoMore(a, s, 0);
        return false, startp, endp;
      }
    }
    if r.reganch {
      ok := RegTry(m, 0, a);
      if !ok { SearchDecides(a, s, 0); NoMore(a, s, 0); }
      return;
    }
    ok := ScanText(m, r.regstart, a);
  }

  method ScanText(m: Matcher, regstart: Byte, ghost a: Alts) returns (ok: bool)
    requires m.Valid() && At(m.prog, 1, Choice(a, Done)) && (forall i: nat :: Live(Choice(a, Done), i, false))
    requires regstart != 0 ==> StartsWith(a, regstart)
    modifies m`reginput, m.startp, m.endp
    ensures m.Valid()
    ensures var n := InOrder(a, m.text, 0);
            (ok <==> n.Some?) && (ok ==> Reported(m.startp[..], m.endp[..], n.value.0, n.value.1))
  {
    hide At, Live, First, Reported;
    var i := 0;
    while true
      invariant m.Valid() && 0 <= i <= |m.text|
      invariant InOrder(a, m.text, i) == InOrder(a, m.text, 0)
      decreases |m.text| - i
    {
      if regstart == 0 || Ch(m.text, i) == regstart {
        ok := RegTry(m, i, a);
        if ok { return; }
      }
      SearchDecides(a, m.text, i);
      if i == |m.text| { return false; }
      SkipOne(a, m.text, i);
      i := i + 1;
    }
  }

  // ---- digging out the shortcuts ------------------------------------------

  /** The literal t is a piece of b, without a star. */
  ghost predicate HasText(b: Branch, t: seq<Token>) {
    b.Cons? && (b.head == Piece(Exactly(t), false) || HasText(b.tail, t))
  }

  lemma {:induction false} TextOccurs(b: Branch, t: seq<Token>, s: seq<Chr>, i: nat, j: nat)
    requires HasText(b, t) && BranchMatches(b, s, i, j)
    ensures Occurs(Text(t), s)
  {
    var m := BranchElim(b, s, i, j);
    if b.head == Piece(Exactly(t), false) {
      assert AtomMatches(Exactly(t), s, i, m);
      assert OccursAt(Text(t), s, i);
    } else {
      TextOccurs(b.tail, t, s, m, j);
    }
  }

  lemma TextContained(b: Branch, t: seq<Token>)
    requires HasText(b, t)
    ensures Contains(Last(b), Text(t))
  {
    forall s: seq<Chr>, i: nat | MatchesAt(Last(b), s, i) ensures Occurs(Text(t), s) {
      var j: nat :| AltsMatch(Last(b), s, i, j);
      TextOccurs(b, t, s, i, j);
    }
  }

  /** The program's only alternative starts with a literal. */
  lemma LiteralStart(b: Branch, prog: seq<Byte>)
    requires GoodAlts(Last(b)) && At(prog, 4, Body(b, Done)) && |prog| < MAXCODE && prog[4] == EXACTLY
    ensures 7 < |prog| && prog[7] != 0 && StartsWith(Last(b), prog[7])
  {
    hide At, Live;
    var k := Body(b, Done);
    TopLive(b);
    Lookahead(prog, 4, k, [], 0);
    forall s: seq<Chr>, i: nat | MatchesAt(Last(b), s, i) ensures Ch(s, i) == prog[7] {
      MatchesInside(Last(b), s, i);
      SearchDecides(Last(b), s, i);
      Lookahead(prog, 4, k, s, i);
    }
  }

  lemma TopLive(b: Branch)
    requires GoodBranch(b)
    ensures forall i: nat :: Live(Body(b, Done), i, false)
  {
  }

  lemma AnchorStart(b: Branch, prog: seq<Byte>)
    requires GoodAlts(Last(b)) && At(prog, 4, Body(b, Done)) && |prog| < MAXCODE && prog[4] == BOL
    ensures Anchored(Last(b))
  {
    TopLive(b);
    Kind(prog, 4, Body(b, Done), 0);
    assert b.Cons? && b.head == Piece(Bol, false);
    forall s: seq<Chr>, i: nat | MatchesAt(Last(b), s, i) ensures i == 0 {
      var j: nat :| AltsMatch(Last(b), s, i, j);
      var m := BranchElim(b, s, i, j);
      assert AtomMatches(Bol, s, i, m);
    }
  }

  /** Where the walk along the top-level "next" chain can be, and the pieces it has yet
      to reach.  It never enters the operand of a BRANCH or a STAR. */
  ghost predicate TopLevel(k: Cont, r: Branch) {
    || k == Then(r, Done)
    || (k == Done && r == Nil)
    || (k == Skip(Done) && r == Nil)
    || k == Skip(Then(r, Done))
    || k == Leave(Then(r, Done))
    || (k.Close? && k.next == Then(r, Done))
    || (k.Choice? && k.next.Close? && k.next.next == Then(r, Done))
  }

  /** One step of the walk. */
  lemma WalkStep(prog: seq<Byte>, pc: nat, k: Cont, r: Branch) returns (k': Cont, r': Branch)
    requires At(prog, pc, k) && Live(k, 0, false) && |prog| < MAXCODE && TopLevel(k, r)
    ensures NextOff(prog, pc) == 0 || (prog[pc] != BACK && At(prog, pc + NextOff(prog, pc), k') && Live(k', 0, false))
    ensures NextOff(prog, pc) != 0 ==> TopLevel(k', r') && forall t :: HasText(r', t) ==> HasText(r, t)
    ensures prog[pc] == EXACTLY ==>
              r.Cons? && r.head.atom.Exactly? && HasText(r, r.head.atom.text) && GoodAtom(r.head.atom)
              && CodeAt(prog, pc + 3, Operand(r.head.atom))
  {
    hide At, Live, NextOff, CodeAt, Operand, HasText, GoodAtom;
    r' := r;
    match k
    case Choice(alts, nx) =>
      ChoiceOp(prog, pc, alts, nx);
      k' := WalkChoice(prog, pc, alts, nx, r);
    case Then(Cons(p, rest), nx) =>
      PieceOp(prog, pc, p, rest, Done);
      k', r' := WalkPiece(prog, pc, p, rest);
      OwnText(r);
    case _ => k' := WalkSimple(prog, pc, k, r);
  }

  lemma OwnText(r: Branch)
    requires r.Cons?
    ensures r.head.atom.Exactly? && !r.head.star ==> HasText(r, r.head.atom.text)
  {
  }

  lemma WalkSimple(prog: seq<Byte>, pc: nat, k: Cont, r: Branch) returns (k': Cont)
    requires At(prog, pc, k) && Live(k, 0, false) && TopLevel(k, r) && !k.Choice? && !(k.Then? && k.todo.Cons?)
    ensures NextOff(prog, pc) == 0 || (At(prog, pc + NextOff(prog, pc), k') && Live(k', 0, false) && TopLevel(k', r))
    ensures prog[pc] != EXACTLY && prog[pc] != BACK
  {
    match k
    case Skip(nx) => k' := nx;
    case Leave(nx) => k' := Skip(nx);
    case Close(n, nx) => k' := nx;
    case Done => k' := k;
    case Then(Nil, nx) => k' := k;
  }

  lemma TopClose(n: nat, r: Branch, w: bool)
    requires Live(Close(n, Then(r, Done)), 0, w)
    ensures Live(Close(n, Then(r, Done)), 0, false)
  {
    assert Live(Then(r, Done), 0, w);
    assert Live(Then(r, Done), 0, false);
  }

  lemma WalkChoice(prog: seq<Byte>, pc: nat, alts: Alts, nx: Cont, r: Branch) returns (k': Cont)
    requires nx.Close? && nx.next == Then(r, Done)
    requires At(prog, pc, Choice(alts, nx)) && Live(Choice(alts, nx), 0, false) && |prog| < MAXCODE
    ensures At(prog, pc + NextOff(prog, pc), k') && Live(k', 0, false)
    ensures k' == nx || (k'.Choice? && k'.next == nx)
  {
    hide At, NextOff, CodeAt, BodySize;
    LiveChoice(alts, nx);
    match alts
    case Last(b) =>
      AtLast(prog, pc, b, nx);
      ChoiceAt(prog, pc, alts, nx);
      TopClose(nx.n, r, AltsWidth(alts));
      k' := nx;
    case More(b, rest) =>
      AtMore(prog, pc, b, rest, nx);
      BranchLive(Choice(alts, nx), 0);
      k' := Choice(rest, nx);
  }

  lemma LiveChoice(alts: Alts, nx: Cont)
    requires Live(Choice(alts, nx), 0, false)
    ensures Live(nx, 0, AltsWidth(alts))
  {
  }

  lemma WalkPiece(prog: seq<Byte>, pc: nat, p: Piece, rest: Branch) returns (k': Cont, r': Branch)
    requires At(prog, pc, Then(Cons(p, rest), Done)) && Live(Then(Cons(p, rest), Done), 0, false) && |prog| < MAXCODE
    ensures At(prog, pc + NextOff(prog, pc), k') && Live(k', 0, false) && TopLevel(k', r')
    ensures forall t :: HasText(r', t) ==> HasText(Cons(p, rest), t)
    ensures prog[pc] == EXACTLY ==>
              !p.star && p.atom.Exactly? && GoodAtom(p.atom) && CodeAt(prog, pc + 3, Operand(p.atom))
  {
    hide At, NextOff, CodeAt, Operand, AtomSize, Live;
    r' := rest;
    var k := Then(rest, Done);
    TopPiece(p, rest);
    PieceOp(prog, pc, p, rest, Done);
    if p.star {
      if Simple(p.atom) {
        AtSimpleStar(prog, pc, p.atom, rest, Done);
        k' := k;
      } else {
        AtLoop(prog, pc, p.atom, rest, Done, 0);
        k' := Leave(k);
      }
    } else if p.atom.Group? {
      AtGroup(prog, pc, p.atom.n, p.atom.alts, rest, Done);
      k' := Choice(p.atom.alts, Close(p.atom.n, k));
    } else {
      AtAtom(prog, pc, p.atom, rest, Done);
      k' := k;
    }
  }

  lemma TopPiece(p: Piece, rest: Branch)
    requires Live(Then(Cons(p, rest), Done), 0, false)
    ensures var k := Then(rest, Done);
            && Live(k, 0, false) && Live(Leave(k), 0, false) && GoodAtom(p.atom)
            && (p.atom.Group? ==> Live(Choice(p.atom.alts, Close(p.atom.n, k)), 0, false))
  {
    var k := Then(rest, Done);
    LivePiece(p, rest, Done, 0);
    assert Live(k, 0, false) && Live(k, 0, true);
    if p.atom.Group? {
      assert Live(Close(p.atom.n, k), 0, AltsWidth(p.atom.alts));
    }
  }

  /** The longest literal on the top-level chain, later ones winning ties. */
  method LongestLiteral(prog: seq<Byte>, ghost b: Branch) returns (longest: Option<nat>, len: nat)
    requires GoodAlts(Last(b)) && At(prog, 4, Body(b, Done)) && |prog| < MAXCODE
    ensures longest.Some? ==>
              exists t :: HasText(b, t) && StrAt(prog, longest.value, Text(t)) && |Text(t)| == len > 0
  {
    hide At, Live, NextOff, CodeAt, Operand, StrAt, Text, GoodAtom, HasText;
    longest, len := None, 0;
    var scan := 4;
    ghost var k, r, best: seq<Token> := Body(b, Done), b, [];
    TopLive(b);
    while true
      invariant At(prog, scan, k) && Live(k, 0, false) && TopLevel(k, r)
      invariant forall t :: HasText(r, t) ==> HasText(b, t)
      invariant longest.Some? ==> HasText(b, best) && StrAt(prog, longest.value, Text(best)) && |Text(best)| == len > 0
      decreases |prog| - scan
    {
      ghost var k', r' := WalkStep(prog, scan, k, r);
      if prog[scan] == EXACTLY {
        ghost var a := r.head.atom;
        OperandIsString(prog, scan + 3, a);
        NonEmptyText(a);
        var n := StrLen(prog, scan + 3, Text(a.text));
        if n >= len { longest, len, best := Some(scan + 3), n, a.text; }
      }
      var next := NextOff(prog, scan);
      if next == 0 { return; }
      scan, k, r := scan + next, k', r';
    }
  }

  lemma NonEmptyText(a: Atom)
    requires a.Exactly? && GoodAtom(a)
    ensures OperandText(a) == Text(a.text) && |Text(a.text)| > 0
  {
  }

  /** regcomp: compile, then dig out information for optimisations. */
  method RegComp(p: seq<Chr>, excompat: bool) returns (r: Option<Regexp>)
    requires Escaped(p)
    ensures r.Some? <==> Accepted(p, excompat)
    ensures r.Some? ==> Describes(r.value, PatternTree(p, excompat))
  {
    hide ProgramCode, AltsSize, GoodAlts, StrAt, At, Live, NextOff;
    var c := CompilePattern(p, excompat);
    if c.None? { return None; }
    var prog, flags := c.value.0[..], c.value.1;
    ghost var a := PatternTree(p, excompat);
    TreeIsGood(p, excompat);
    ProgramAt(a, prog);
    OnlyOne(prog, a);
    var re := Regexp(prog, 0, false, None, 0);
    if prog[1 + NextOff(prog, 1)] == END {
      ghost var b := a.only;
      if prog[4] == EXACTLY {
        LiteralStart(b, prog);
        re := re.(regstart := prog[7]);
      } else if prog[4] == BOL {
        AnchorStart(b, prog);
        re := re.(reganch := true);
      }
      if flags.spstart {
        var longest, len := LongestLiteral(prog, b);
        re := re.(regmust := longest, regmlen := len);
        if longest.Some? {
          ghost var t :| HasText(b, t) && StrAt(prog, longest.value, Text(t)) && |Text(t)| == len > 0;
          TextContained(b, t);
          assert MustString(re, a, Text(t));
        }
      }
    }
    return Some(re);
  }

  lemma TreeIsGood(p: seq<Chr>, excompat: bool)
    requires Escaped(p) && Accepted(p, excompat)
    ensures GoodAlts(PatternTree(p, excompat)) && |ProgramCode(PatternTree(p, excompat))| < MAXCODE
  {
    hide GoodAlts, AltsSize, AltsCode;
    TokensAreGood(p, excompat);
    ParseAltsGood(Tokens(p, excompat).value, 0, 1);
  }

  /** regnext of the first BRANCH is END only when there is a single alternative. */
  lemma OnlyOne(prog: seq<Byte>, a: Alts)
    requires At(prog, 1, Choice(a, Done)) && |prog| < MAXCODE
    ensures 1 + NextOff(prog, 1) < |prog|
    ensures prog[1 + NextOff(prog, 1)] == END ==> a.Last? && At(prog, 4, Body(a.only, Done))
  {
    hide At, NextOff, BodySize;
    match a
    case Last(b) => AtLast(prog, 1, b, Done);
    case More(b, rest) =>
      AtMore(prog, 1, b, rest, Done);
      ChoiceOp(prog, 1 + 3 + BodySize(b), rest, Done);
  }

  // ---- the whole ----------------------------------------------------------

  /** Every group that has a position has been matched there, and has a start and an end. */
  ghost predicate GroupsMatch(a: Alts, s: seq<Chr>, startp: seq<int>, endp: seq<int>)
    requires |startp| == |endp| == NSUBEXP
  {
    forall n: nat | 1 <= n < NSUBEXP ::
      && (startp[n] == -1 <==> endp[n] == -1)
      && (startp[n] != -1 ==>
            && startp[0] <= startp[n] && 0 <= startp[n] <= endp[n] <= endp[0]
            && GroupOf(a, n).Some? && AltsMatch(GroupOf(a, n).value, s, startp[n], endp[n]))
  }

  lemma ReportedGroups(a: Alts, s: seq<Chr>, i: nat, startp: seq<int>, endp: seq<int>)
    requires NormalAlts(a, 1) && i <= |s| && First(Choice(a, Done), s, i).Some?
    requires Reported(startp, endp, i, First(Choice(a, Done), s, i).value)
    ensures |startp| == |endp| == NSUBEXP && GroupsMatch(a, s, startp, endp)
  {
    hide NormalAlts, First, AltsMatch, GroupOf;
    forall n: nat | 1 <= n < NSUBEXP
      ensures && (startp[n] == -1 <==> endp[n] == -1)
              && (startp[n] != -1 ==>
                    && startp[0] <= startp[n] && 0 <= startp[n] <= endp[n] <= endp[0]
                    && GroupOf(a, n).Some? && AltsMatch(GroupOf(a, n).value, s, startp[n], endp[n]))
    {
      Captures(a, s, i, n);
    }
  }

  lemma {:induction false} InOrderFirst(a: Alts, s: seq<Chr>, i: nat)
    requires i <= |s| && InOrder(a, s, i).Some?
    ensures var n := InOrder(a, s, i).value; n.0 <= |s| && First(Choice(a, Done), s, n.0) == Some(n.1)
    decreases |s| - i
  {
    hide First;
    if First(Choice(a, Done), s, i).None? { InOrderFirst(a, s, i + 1); }
  }

  /** The tree of a pattern is in normal form and shows the pattern. */
  lemma TreeIsNormal(p: seq<Chr>, excompat: bool)
    requires Escaped(p) && Accepted(p, excompat)
    ensures var a := PatternTree(p, excompat); NormalAlts(a, 1) && Tokens(p, excompat) == Some(ShowAlts(a))
  {
    hide ParsePattern, NormalAlts, ShowAlts, AltsSize;
    TokensAreGood(p, excompat);
    PatternShown(Tokens(p, excompat).value);
  }

  /** The result of trying the positions in order, in terms of what the tree means. */
  ghost predicate Outcome(a: Alts, s: seq<Chr>, ok: bool, startp: seq<int>, endp: seq<int>) {
    && |startp| == |endp| == NSUBEXP
    && (ok <==> exists i: nat :: MatchesAt(a, s, i))
    && (ok ==> startp[0] >= 0 && endp[0] >= 0 && AltsMatch(a, s, startp[0], endp[0])
               && (forall i: nat | i < startp[0] :: !MatchesAt(a, s, i))
               && GroupsMatch(a, s, startp, endp))
  }

  lemma OutcomeIs(a: Alts, s: seq<Chr>, ok: bool, startp: seq<int>, endp: seq<int>)
    requires NormalAlts(a, 1) && |startp| == |endp| == NSUBEXP && (ok <==> InOrder(a, s, 0).Some?)
    requires ok ==> Reported(startp, endp, InOrder(a, s, 0).value.0, InOrder(a, s, 0).value.1)
    ensures Outcome(a, s, ok, startp, endp)
  {
    hide First, NormalAlts, GroupsMatch, AltsMatch;
    InOrderLeftmost(a, s, 0);
    if ok {
      var i := InOrder(a, s, 0).value.0;
      InOrderFirst(a, s, 0);
      ReportedGroups(a, s, i, startp, endp);
      assert MatchesAt(a, s, i);
    }
  }

  /** Compiling a pattern and running it on a text.  The pattern is that of one tree in
      normal form; the run succeeds exactly when some position starts a match of it, reports
      the leftmost such position and a matching stretch of the text, and for every group
      that took part a stretch inside that its alternatives match. */
  method MatchPattern(p: seq<Chr>, excompat: bool, s: seq<Chr>)
    returns (ok: bool, startp: array<int>, endp: array<int>)
    requires Escaped(p) && Accepted(p, excompat)
    ensures startp.Length == endp.Length == NSUBEXP
    ensures var a := PatternTree(p, excompat);
            && NormalAlts(a, 1) && Tokens(p, excompat) == Some(ShowAlts(a))
            && Outcome(a, s, ok, startp[..], endp[..])
  {
    hide First, NormalAlts, ShowAlts, Outcome, Reported, InOrder, Describes;
    ghost var a := PatternTree(p, excompat);
    TreeIsNormal(p, excompat);
    var r := RegComp(p, excompat);
    ok, startp, endp := RegExec(r.value, s, a);
    OutcomeIs(a, s, ok, startp[..], endp[..]);
  }
}
