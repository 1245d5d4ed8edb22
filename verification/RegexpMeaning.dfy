/** What a pattern means, and the backtracking search over syntax trees.

    `AtomMatches` .. `AltsMatch` are the denotation: which stretches i..j of the text a
    tree matches.  `First` is the search in the order regmatch explores alternatives,
    on trees instead of bytecode; it is proved sound and complete for the denotation.
 */
module RegexpMeaning {
  import opened RegexpSyntax
  import opened RegexpCode

  // ---- denotation ---------------------------------------------------------

  /** ISWORDPART in the C locale. */
  predicate WordPart(c: Byte) {
    || '0' as int <= c <= '9' as int || 'A' as int <= c <= 'Z' as int
    || 'a' as int <= c <= 'z' as int || c == '_' as int
  }

  predicate AtWordStart(s: seq<Chr>, i: nat) {
    i == 0 || (i < |s| && !WordPart(s[i - 1]) && WordPart(s[i]))
  }

  predicate AtWordEnd(s: seq<Chr>, i: nat) {
    i >= |s| || (i > 0 && WordPart(s[i - 1]) && !WordPart(s[i]))
  }

  /** Does a SIMPLE atom match the character c? */
  predicate OneChar(a: Atom, c: Chr) {
    match a
    case Any => true
    case AnyOf(body) => InClass(body, c)
    case AnyBut(body) => !InClass(body, c)
    case Exactly(text) => |text| == 1 && LowByte(text[0]) == c
    case _ => false
  }

  ghost predicate AtomMatches(a: Atom, s: seq<Chr>, i: nat, j: nat)
    decreases a, 0
  {
    match a
    case Bol => i == j == 0
    case Eol => i == j == |s|
    case WordStart => i == j <= |s| && AtWordStart(s, i)
    case WordEnd => i == j <= |s| && AtWordEnd(s, i)
    case Any | AnyOf(_) | AnyBut(_) => j == i + 1 <= |s| && OneChar(a, s[i])
    case Exactly(text) => j == i + |text| <= |s| && s[i..j] == Text(text)
    case Group(_, alts) => AltsMatch(alts, s, i, j)
  }

  /** n consecutive matches of x. */
  ghost predicate Times(x: Atom, n: nat, s: seq<Chr>, i: nat, j: nat)
    decreases x, n + 1
  {
    if n == 0 then i == j <= |s|
    else exists m: nat :: AtomMatches(x, s, i, m) && Times(x, n - 1, s, m, j)
  }

  ghost predicate PieceMatches(p: Piece, s: seq<Chr>, i: nat, j: nat)
    decreases p, 0
  {
    if p.star then exists n: nat :: Times(p.atom, n, s, i, j) else AtomMatches(p.atom, s, i, j)
  }

  ghost predicate BranchMatches(b: Branch, s: seq<Chr>, i: nat, j: nat)
    decreases b, 0
  {
    match b
    case Nil => i == j <= |s|
    case Cons(p, rest) => exists m: nat :: PieceMatches(p, s, i, m) && BranchMatches(rest, s, m, j)
  }

  ghost predicate AltsMatch(a: Alts, s: seq<Chr>, i: nat, j: nat)
    decreases a, 0
  {
    match a
    case Last(b) => BranchMatches(b, s, i, j)
    case More(b, rest) => BranchMatches(b, s, i, j) || AltsMatch(rest, s, i, j)
  }

  // ---- search -------------------------------------------------------------

  /** What remains to be matched. */
  datatype Cont =
    | Done
    | Then(todo: Branch, next: Cont)
    | Skip(next: Cont)
    | Choice(alts: Alts, next: Cont)
    | Leave(next: Cont)
    | Close(n: nat, next: Cont)
    | Again(x: Atom, from: nat, next: Cont)

  /** A successful match: its end, and startp/endp for the groups (-1 for NULL). */
  datatype Hit = Hit(end: nat, starts: seq<int>, ends: seq<int>)

  const NOWHERE := [-1, -1, -1, -1, -1, -1, -1, -1, -1, -1]

  /** Later invocations of the same parentheses have precedence. */
  function Mark(marks: seq<int>, n: nat, i: nat): seq<int> {
    if n < |marks| && marks[n] == -1 then marks[n := i] else marks
  }

  function MarkStart(h: Option<Hit>, n: nat, i: nat): Option<Hit> {
    match h
    case None => None
    case Some(Hit(e, st, en)) => Some(Hit(e, Mark(st, n, i), en))
  }

  function MarkEnd(h: Option<Hit>, n: nat, i: nat): Option<Hit> {
    match h
    case None => None
    case Some(Hit(e, st, en)) => Some(Hit(e, st, Mark(en, n, i)))
  }

  function OrElse(a: Option<Hit>, b: Option<Hit>): Option<Hit> { if a.Some? then a else b }

  function AtomWeight(a: Atom): nat { if a.Group? then 3 + AltsWeight(a.alts) else 1 }
  function PieceWeight(p: Piece): nat { AtomWeight(p.atom) + if p.star then 4 else 1 }
  function BranchWeight(b: Branch): nat { if b.Nil? then 0 else PieceWeight(b.head) + BranchWeight(b.tail) }
  function AltsWeight(a: Alts): nat {
    match a
    case Last(b) => BranchWeight(b) + 2
    case More(b, rest) => BranchWeight(b) + 2 + AltsWeight(rest)
  }

  /** Decreases with every step that consumes nothing.  A loop can be re-entered only
      after its operand has consumed something, and weighs nothing before that. */
  function Weight(k: Cont, i: nat): nat {
    match k
    case Done => 0
    case Then(b, nx) => BranchWeight(b) + 1 + Weight(nx, i)
    case Skip(nx) => 1 + Weight(nx, i)
    case Choice(alts, nx) => AltsWeight(alts) + Weight(nx, i)
    case Leave(nx) => 2 + Weight(nx, i)
    case Close(_, nx) => 1 + Weight(nx, i)
    case Again(x, from, nx) => (if i > from then AtomWeight(x) + 8 else 0) + Weight(nx, i)
  }

  lemma WeightThen(p: Piece, rest: Branch, nx: Cont, i: nat)
    ensures var k := Then(rest, nx); var w := Weight(Then(Cons(p, rest), nx), i);
            && w == PieceWeight(p) + Weight(k, i)
            && Weight(Leave(k), i) == 2 + Weight(k, i)
            && Weight(Then(Cons(Piece(p.atom, false), Nil), Again(p.atom, i, k)), i)
                == AtomWeight(p.atom) + 2 + Weight(k, i)
            && (p.atom.Group? ==>
                  Weight(Choice(p.atom.alts, Close(p.atom.n, k)), i) == AltsWeight(p.atom.alts) + 1 + Weight(k, i))
  {
    var k := Then(rest, nx);
    assert BranchWeight(Cons(p, rest)) == PieceWeight(p) + BranchWeight(rest);
    assert BranchWeight(Cons(Piece(p.atom, false), Nil)) == AtomWeight(p.atom) + 1;
    assert Weight(Again(p.atom, i, k), i) == Weight(k, i);
    if p.atom.Group? { assert Weight(Close(p.atom.n, k), i) == 1 + Weight(k, i); }
  }

  lemma WeightAgain(x: Atom, from: nat, nx: Cont, i: nat)
    requires i > from
    ensures Weight(Then(Cons(Piece(x, true), Nil), nx), i) < Weight(Again(x, from, nx), i)
  {
    assert BranchWeight(Cons(Piece(x, true), Nil)) == AtomWeight(x) + 4;
    assert Weight(Then(Cons(Piece(x, true), Nil), nx), i) == AtomWeight(x) + 5 + Weight(nx, i);
  }

  /** How often a SIMPLE atom matches in a row. */
  function Repeat(x: Atom, s: seq<Chr>, i: nat): (n: nat)
    requires i <= |s|
    ensures i + n <= |s|
    ensures forall k | i <= k < i + n :: OneChar(x, s[k])
    ensures i + n < |s| ==> !OneChar(x, s[i + n])
    decreases |s| - i
  {
    if i < |s| && OneChar(x, s[i]) then 1 + Repeat(x, s, i + 1) else 0
  }

  /** Where a parenthesis-free atom leads from i, or None. */
  function Advance(a: Atom, s: seq<Chr>, i: nat): (r: Option<nat>)
    requires i <= |s| && !a.Group?
    ensures r.Some? ==> i <= r.value <= |s|
    ensures r.Some? && GoodAtom(a) && AtomWidth(a) ==> i < r.value
  {
    match a
    case Bol => if i == 0 then Some(i) else None
    case Eol => if i == |s| then Some(i) else None
    case WordStart => if AtWordStart(s, i) then Some(i) else None
    case WordEnd => if AtWordEnd(s, i) then Some(i) else None
    case Any | AnyOf(_) | AnyBut(_) => if i < |s| && OneChar(a, s[i]) then Some(i + 1) else None
    case Exactly(text) => if i + |text| <= |s| && s[i..i + |text|] == Text(text) then Some(i + |text|) else None
  }

  /** The first match of k at i, in the order the backtracking matcher tries them. */
  function First(k: Cont, s: seq<Chr>, i: nat): Option<Hit>
    requires i <= |s|
    decreases |s| - i, Weight(k, i), 0
  {
    match k
    case Done => Some(Hit(i, NOWHERE, NOWHERE))
    case Skip(nx) => First(nx, s, i)
    case Leave(nx) => First(nx, s, i)
    case Close(n, nx) => MarkEnd(First(nx, s, i), n, i)
    case Again(x, from, nx) =>
      if i <= from then None
      else
        WeightAgain(x, from, nx, i);
        First(Then(Cons(Piece(x, true), Nil), nx), s, i)
    case Choice(Last(b), nx) => First(Then(b, nx), s, i)
    case Choice(More(b, rest), nx) => OrElse(First(Then(b, nx), s, i), First(Choice(rest, nx), s, i))
    case Then(Nil, nx) => First(nx, s, i)
    case Then(Cons(Piece(a, false), rest), nx) =>
      WeightThen(Piece(a, false), rest, nx, i);
      if a.Group? then MarkStart(First(Choice(a.alts, Close(a.n, Then(rest, nx))), s, i), a.n, i)
      else (match Advance(a, s, i)
            case None => None
            case Some(i') => First(Then(rest, nx), s, i'))
    case Then(Cons(Piece(x, true), rest), nx) =>
      WeightThen(Piece(x, true), rest, nx, i);
      if Simple(x) then FirstDown(Then(rest, nx), s, i, Repeat(x, s, i))
      else OrElse(First(Then(Cons(Piece(x, false), Nil), Again(x, i, Then(rest, nx))), s, i),
                  First(Leave(Then(rest, nx)), s, i))
  }

  /** The first match of k at i+n, i+n-1, .., i. */
  function FirstDown(k: Cont, s: seq<Chr>, i: nat, n: nat): Option<Hit>
    requires i + n <= |s|
    decreases |s| - i, Weight(k, i) + 1, n
  {
    OrElse(First(k, s, i + n), if n == 0 then None else FirstDown(k, s, i, n - 1))
  }

  // ---- facts about the denotation -----------------------------------------

  lemma {:induction false} AtomInText(a: Atom, s: seq<Chr>, i: nat, j: nat)
    requires AtomMatches(a, s, i, j)
    ensures i <= j <= |s|
    decreases a, 0
  {
    if a.Group? { AltsInText(a.alts, s, i, j); }
  }

  lemma {:induction false} TimesInText(x: Atom, n: nat, s: seq<Chr>, i: nat, j: nat)
    requires Times(x, n, s, i, j)
    ensures i <= j <= |s|
    decreases x, n + 1
  {
    if n > 0 {
      var m: nat :| AtomMatches(x, s, i, m) && Times(x, n - 1, s, m, j);
      AtomInText(x, s, i, m);
      TimesInText(x, n - 1, s, m, j);
    }
  }

  lemma {:induction false} PieceInText(p: Piece, s: seq<Chr>, i: nat, j: nat)
    requires PieceMatches(p, s, i, j)
    ensures i <= j <= |s|
    decreases p, 0
  {
    if p.star {
      var n: nat :| Times(p.atom, n, s, i, j);
      TimesInText(p.atom, n, s, i, j);
    } else {
      AtomInText(p.atom, s, i, j);
    }
  }

  lemma {:induction false} BranchInText(b: Branch, s: seq<Chr>, i: nat, j: nat)
    requires BranchMatches(b, s, i, j)
    ensures i <= j <= |s|
    decreases b, 0
  {
    if b.Cons? {
      var m: nat :| PieceMatches(b.head, s, i, m) && BranchMatches(b.tail, s, m, j);
      PieceInText(b.head, s, i, m);
      BranchInText(b.tail, s, m, j);
    }
  }

  lemma {:induction false} AltsInText(a: Alts, s: seq<Chr>, i: nat, j: nat)
    requires AltsMatch(a, s, i, j)
    ensures i <= j <= |s|
    decreases a, 0
  {
    match a
    case Last(b) => BranchInText(b, s, i, j);
    case More(b, rest) =>
      if BranchMatches(b, s, i, j) { BranchInText(b, s, i, j); } else { AltsInText(rest, s, i, j); }
  }

  /** HASWIDTH is right: such an atom never matches the empty string. */
  lemma {:induction false} AtomConsumes(a: Atom, s: seq<Chr>, i: nat, j: nat)
    requires AtomMatches(a, s, i, j) && AtomWidth(a) && GoodAtom(a)
    ensures i < j
    decreases a, 0
  {
    if a.Group? { AltsConsume(a.alts, s, i, j); }
  }

  lemma {:induction false} BranchConsumes(b: Branch, s: seq<Chr>, i: nat, j: nat)
    requires BranchMatches(b, s, i, j) && BranchWidth(b) && GoodBranch(b)
    ensures i < j
    decreases b, 0
  {
    var m: nat :| PieceMatches(b.head, s, i, m) && BranchMatches(b.tail, s, m, j);
    PieceInText(b.head, s, i, m);
    BranchInText(b.tail, s, m, j);
    if PieceWidth(b.head) { AtomConsumes(b.head.atom, s, i, m); } else { BranchConsumes(b.tail, s, m, j); }
  }

  lemma {:induction false} AltsConsume(a: Alts, s: seq<Chr>, i: nat, j: nat)
    requires AltsMatch(a, s, i, j) && AltsWidth(a) && GoodAlts(a)
    ensures i < j
    decreases a, 0
  {
    match a
    case Last(b) => BranchConsumes(b, s, i, j);
    case More(b, rest) =>
      if BranchMatches(b, s, i, j) { BranchConsumes(b, s, i, j); } else { AltsConsume(rest, s, i, j); }
  }

  /** Iterations that consume nothing can be dropped: a longer match has a first
      iteration that consumes. */
  lemma {:induction false} FirstConsumingTime(x: Atom, n: nat, s: seq<Chr>, i: nat, j: nat) returns (m: nat, n': nat)
    requires Times(x, n, s, i, j) && i < j
    ensures i < m && AtomMatches(x, s, i, m) && Times(x, n', s, m, j)
  {
    m :| AtomMatches(x, s, i, m) && Times(x, n - 1, s, m, j);
    n' := n - 1;
    AtomInText(x, s, i, m);
    if m == i { m, n' := FirstConsumingTime(x, n - 1, s, i, j); }
  }

  lemma {:induction false} SimpleTimes(x: Atom, n: nat, s: seq<Chr>, i: nat, j: nat)
    requires Simple(x) && Times(x, n, s, i, j)
    ensures i <= |s| && i + n == j <= i + Repeat(x, s, i)
    decreases n
  {
    if n > 0 {
      var m: nat :| AtomMatches(x, s, i, m) && Times(x, n - 1, s, m, j);
      SimpleTimes(x, n - 1, s, m, j);
      assert x.Exactly? ==> s[i..m][0] == s[i] == Text(x.text)[0];
    }
  }

  lemma {:induction false} RepeatTimes(x: Atom, n: nat, s: seq<Chr>, i: nat)
    requires Simple(x) && i <= |s| && n <= Repeat(x, s, i)
    ensures Times(x, n, s, i, i + n)
    decreases n
  {
    if n > 0 {
      RepeatTimes(x, n - 1, s, i + 1);
      assert x.Exactly? ==> s[i..i + 1] == Text(x.text);
      assert AtomMatches(x, s, i, i + 1);
    }
  }

  // ---- the search finds exactly the denotation ----------------------------

  ghost predicate ContMatches(k: Cont, s: seq<Chr>, i: nat, j: nat)
  {
    match k
    case Done => i == j <= |s|
    case Then(b, nx) => exists m: nat :: BranchMatches(b, s, i, m) && ContMatches(nx, s, m, j)
    case Skip(nx) => ContMatches(nx, s, i, j)
    case Leave(nx) => ContMatches(nx, s, i, j)
    case Close(_, nx) => ContMatches(nx, s, i, j)
    case Choice(alts, nx) => exists m: nat :: AltsMatch(alts, s, i, m) && ContMatches(nx, s, m, j)
    case Again(x, from, nx) =>
      i > from && exists m: nat :: PieceMatches(Piece(x, true), s, i, m) && ContMatches(nx, s, m, j)
  }

  lemma AdvanceIsMatch(a: Atom, s: seq<Chr>, i: nat, j: nat)
    requires i <= |s| && !a.Group?
    ensures AtomMatches(a, s, i, j) <==> Advance(a, s, i) == Some(j)
  {
  }

  /** From a match of p and of what follows it to a match of the whole. */
  lemma ThenIntro(p: Piece, rest: Branch, nx: Cont, s: seq<Chr>, i: nat, m: nat, j: nat)
    requires PieceMatches(p, s, i, m) && ContMatches(Then(rest, nx), s, m, j)
    ensures ContMatches(Then(Cons(p, rest), nx), s, i, j)
  {
    var e: nat :| BranchMatches(rest, s, m, e) && ContMatches(nx, s, e, j);
    assert BranchMatches(Cons(p, rest), s, i, e);
  }

  lemma BranchElim(b: Branch, s: seq<Chr>, i: nat, j: nat) returns (m: nat)
    requires b.Cons? && BranchMatches(b, s, i, j)
    ensures PieceMatches(b.head, s, i, m) && BranchMatches(b.tail, s, m, j)
  {
    m :| PieceMatches(b.head, s, i, m) && BranchMatches(b.tail, s, m, j);
  }

  lemma StarElim(p: Piece, s: seq<Chr>, i: nat, j: nat) returns (n: nat)
    requires p.star && PieceMatches(p, s, i, j)
    ensures Times(p.atom, n, s, i, j)
  {
    n :| Times(p.atom, n, s, i, j);
  }

  lemma ThenElim(p: Piece, rest: Branch, nx: Cont, s: seq<Chr>, i: nat, j: nat) returns (m: nat)
    requires ContMatches(Then(Cons(p, rest), nx), s, i, j)
    ensures PieceMatches(p, s, i, m) && ContMatches(Then(rest, nx), s, m, j)
    ensures i <= m <= |s|
  {
    var e: nat :| BranchMatches(Cons(p, rest), s, i, e) && ContMatches(nx, s, e, j);
    m := BranchElim(Cons(p, rest), s, i, e);
    PieceInText(p, s, i, m);
  }

  lemma AgainIntro(x: Atom, from: nat, nx: Cont, s: seq<Chr>, i: nat, j: nat)
    requires i > from && ContMatches(Then(Cons(Piece(x, true), Nil), nx), s, i, j)
    ensures ContMatches(Again(x, from, nx), s, i, j)
  {
    var m := ThenElim(Piece(x, true), Nil, nx, s, i, j);
  }

  lemma NilIntro(nx: Cont, s: seq<Chr>, i: nat, j: nat)
    requires i <= |s| && ContMatches(nx, s, i, j)
    ensures ContMatches(Then(Nil, nx), s, i, j)
  {
    assert BranchMatches(Nil, s, i, i);
  }

  lemma LastIntro(b: Branch, nx: Cont, s: seq<Chr>, i: nat, j: nat)
    requires ContMatches(Then(b, nx), s, i, j)
    ensures ContMatches(Choice(Last(b), nx), s, i, j)
  {
    var m: nat :| BranchMatches(b, s, i, m) && ContMatches(nx, s, m, j);
    assert AltsMatch(Last(b), s, i, m);
  }

  lemma MoreIntro(b: Branch, rest: Alts, nx: Cont, s: seq<Chr>, i: nat, j: nat)
    requires ContMatches(Then(b, nx), s, i, j) || ContMatches(Choice(rest, nx), s, i, j)
    ensures ContMatches(Choice(More(b, rest), nx), s, i, j)
  {
    if ContMatches(Then(b, nx), s, i, j) {
      var m: nat :| BranchMatches(b, s, i, m) && ContMatches(nx, s, m, j);
      assert AltsMatch(More(b, rest), s, i, m);
    } else {
      var m: nat :| AltsMatch(rest, s, i, m) && ContMatches(nx, s, m, j);
      assert AltsMatch(More(b, rest), s, i, m);
    }
  }

  lemma GroupIntro(a: Atom, rest: Branch, nx: Cont, s: seq<Chr>, i: nat, j: nat)
    requires a.Group? && ContMatches(Choice(a.alts, Close(a.n, Then(rest, nx))), s, i, j)
    ensures ContMatches(Then(Cons(Piece(a, false), rest), nx), s, i, j)
  {
    var m: nat :| AltsMatch(a.alts, s, i, m) && ContMatches(Close(a.n, Then(rest, nx)), s, m, j);
    assert AtomMatches(a, s, i, m);
    ThenIntro(Piece(a, false), rest, nx, s, i, m, j);
  }

  lemma AdvanceIntro(a: Atom, rest: Branch, nx: Cont, s: seq<Chr>, i: nat, m: nat, j: nat)
    requires i <= |s| && !a.Group? && Advance(a, s, i) == Some(m) && ContMatches(Then(rest, nx), s, m, j)
    ensures ContMatches(Then(Cons(Piece(a, false), rest), nx), s, i, j)
  {
    AdvanceIsMatch(a, s, i, m);
    ThenIntro(Piece(a, false), rest, nx, s, i, m, j);
  }

  lemma DownIntro(x: Atom, rest: Branch, nx: Cont, s: seq<Chr>, i: nat, n: nat, j: nat)
    requires i <= |s| && Simple(x) && n <= Repeat(x, s, i) && ContMatches(Then(rest, nx), s, i + n, j)
    ensures ContMatches(Then(Cons(Piece(x, true), rest), nx), s, i, j)
  {
    RepeatTimes(x, n, s, i);
    ThenIntro(Piece(x, true), rest, nx, s, i, i + n, j);
  }

  lemma OnceIntro(x: Atom, rest: Branch, nx: Cont, s: seq<Chr>, i: nat, j: nat)
    requires ContMatches(Then(Cons(Piece(x, false), Nil), Again(x, i, Then(rest, nx))), s, i, j)
    ensures ContMatches(Then(Cons(Piece(x, true), rest), nx), s, i, j)
  {
    var k := Then(rest, nx);
    var m := ThenElim(Piece(x, false), Nil, Again(x, i, k), s, i, j);
    var m': nat :| BranchMatches(Nil, s, m, m') && ContMatches(Again(x, i, k), s, m', j);
    var e: nat :| PieceMatches(Piece(x, true), s, m, e) && ContMatches(k, s, e, j);
    var n := StarElim(Piece(x, true), s, m, e);
    assert Times(x, n + 1, s, i, e);
    ThenIntro(Piece(x, true), rest, nx, s, i, e, j);
  }

  lemma LeaveIntro(x: Atom, rest: Branch, nx: Cont, s: seq<Chr>, i: nat, j: nat)
    requires i <= |s| && ContMatches(Then(rest, nx), s, i, j)
    ensures ContMatches(Then(Cons(Piece(x, true), rest), nx), s, i, j)
  {
    assert Times(x, 0, s, i, i);
    ThenIntro(Piece(x, true), rest, nx, s, i, i, j);
  }

  lemma {:induction false} FirstSound(k: Cont, s: seq<Chr>, i: nat)
    requires i <= |s| && First(k, s, i).Some?
    ensures ContMatches(k, s, i, First(k, s, i).value.end)
    decreases |s| - i, Weight(k, i), 0
  {
    var j := First(k, s, i).value.end;
    match k
    case Done =>
    case Skip(nx) => FirstSound(nx, s, i);
    case Leave(nx) => FirstSound(nx, s, i);
    case Close(n, nx) => FirstSound(nx, s, i);
    case Again(x, from, nx) =>
      WeightAgain(x, from, nx, i);
      FirstSound(Then(Cons(Piece(x, true), Nil), nx), s, i);
      AgainIntro(x, from, nx, s, i, j);
    case Choice(Last(b), nx) =>
      FirstSound(Then(b, nx), s, i);
      LastIntro(b, nx, s, i, j);
    case Choice(More(b, rest), nx) =>
      if First(Then(b, nx), s, i).Some? { FirstSound(Then(b, nx), s, i); } else { FirstSound(Choice(rest, nx), s, i); }
      MoreIntro(b, rest, nx, s, i, j);
    case Then(Nil, nx) =>
      FirstSound(nx, s, i);
      NilIntro(nx, s, i, j);
    case Then(Cons(Piece(a, false), rest), nx) =>
      WeightThen(Piece(a, false), rest, nx, i);
      AtomSound(a, rest, nx, s, i);
    case Then(Cons(Piece(x, true), rest), nx) =>
      WeightThen(Piece(x, true), rest, nx, i);
      if Simple(x) {
        var n := DownSound(Then(rest, nx), s, i, Repeat(x, s, i));
        DownIntro(x, rest, nx, s, i, n, j);
      } else {
        LoopSound(x, rest, nx, s, i);
      }
  }

  lemma {:induction false} AtomSound(a: Atom, rest: Branch, nx: Cont, s: seq<Chr>, i: nat)
    requires i <= |s| && First(Then(Cons(Piece(a, false), rest), nx), s, i).Some?
    ensures var k := Then(Cons(Piece(a, false), rest), nx); ContMatches(k, s, i, First(k, s, i).value.end)
    decreases |s| - i, Weight(Then(Cons(Piece(a, false), rest), nx), i) - 1, 1
  {
    var k := Then(Cons(Piece(a, false), rest), nx);
    var j := First(k, s, i).value.end;
    WeightThen(Piece(a, false), rest, nx, i);
    if a.Group? {
      FirstSound(Choice(a.alts, Close(a.n, Then(rest, nx))), s, i);
      GroupIntro(a, rest, nx, s, i, j);
    } else {
      var m := Advance(a, s, i).value;
      FirstSound(Then(rest, nx), s, m);
      AdvanceIntro(a, rest, nx, s, i, m, j);
    }
  }

  lemma {:induction false} LoopSound(x: Atom, rest: Branch, nx: Cont, s: seq<Chr>, i: nat)
    requires i <= |s| && !Simple(x) && First(Then(Cons(Piece(x, true), rest), nx), s, i).Some?
    ensures var k := Then(Cons(Piece(x, true), rest), nx); ContMatches(k, s, i, First(k, s, i).value.end)
    decreases |s| - i, Weight(Then(Cons(Piece(x, true), rest), nx), i) - 1, 1
  {
    var k := Then(rest, nx);
    var j := First(Then(Cons(Piece(x, true), rest), nx), s, i).value.end;
    WeightThen(Piece(x, true), rest, nx, i);
    var once := Then(Cons(Piece(x, false), Nil), Again(x, i, k));
    if First(once, s, i).Some? {
      FirstSound(once, s, i);
      OnceIntro(x, rest, nx, s, i, j);
    } else {
      FirstSound(Leave(k), s, i);
      LeaveIntro(x, rest, nx, s, i, j);
    }
  }

  lemma {:induction false} DownSound(k: Cont, s: seq<Chr>, i: nat, n: nat) returns (t: nat)
    requires i + n <= |s| && FirstDown(k, s, i, n).Some?
    ensures t <= n && ContMatches(k, s, i + t, FirstDown(k, s, i, n).value.end)
    decreases |s| - i, Weight(k, i) + 1, n
  {
    if First(k, s, i + n).Some? {
      FirstSound(k, s, i + n);
      t := n;
    } else {
      t := DownSound(k, s, i, n - 1);
    }
  }

  lemma {:induction false} FirstComplete(k: Cont, s: seq<Chr>, i: nat, j: nat)
    requires i <= |s| && ContMatches(k, s, i, j)
    ensures First(k, s, i).Some?
    decreases |s| - i, Weight(k, i), 0
  {
    match k
    case Done =>
    case Skip(nx) => FirstComplete(nx, s, i, j);
    case Leave(nx) => FirstComplete(nx, s, i, j);
    case Close(n, nx) => FirstComplete(nx, s, i, j);
    case Again(x, from, nx) =>
      var m: nat :| PieceMatches(Piece(x, true), s, i, m) && ContMatches(nx, s, m, j);
      PieceInText(Piece(x, true), s, i, m);
      assert BranchMatches(Nil, s, m, m);
      ThenIntro(Piece(x, true), Nil, nx, s, i, m, j);
      WeightAgain(x, from, nx, i);
      FirstComplete(Then(Cons(Piece(x, true), Nil), nx), s, i, j);
    case Choice(Last(b), nx) => FirstComplete(Then(b, nx), s, i, j);
    case Choice(More(b, rest), nx) =>
      var m: nat :| AltsMatch(More(b, rest), s, i, m) && ContMatches(nx, s, m, j);
      if BranchMatches(b, s, i, m) {
        FirstComplete(Then(b, nx), s, i, j);
      } else {
        FirstComplete(Choice(rest, nx), s, i, j);
      }
    case Then(Nil, nx) => FirstComplete(nx, s, i, j);
    case Then(Cons(Piece(a, false), rest), nx) =>
      WeightThen(Piece(a, false), rest, nx, i);
      AtomComplete(a, rest, nx, s, i, j);
    case Then(Cons(Piece(x, true), rest), nx) =>
      WeightThen(Piece(x, true), rest, nx, i);
      StarComplete(x, rest, nx, s, i, j);
  }

  lemma {:induction false} AtomComplete(a: Atom, rest: Branch, nx: Cont, s: seq<Chr>, i: nat, j: nat)
    requires i <= |s| && ContMatches(Then(Cons(Piece(a, false), rest), nx), s, i, j)
    ensures First(Then(Cons(Piece(a, false), rest), nx), s, i).Some?
    decreases |s| - i, Weight(Then(Cons(Piece(a, false), rest), nx), i) - 1, 1
  {
    WeightThen(Piece(a, false), rest, nx, i);
    var m := ThenElim(Piece(a, false), rest, nx, s, i, j);
    if a.Group? {
      var c := Choice(a.alts, Close(a.n, Then(rest, nx)));
      assert AltsMatch(a.alts, s, i, m) && ContMatches(Close(a.n, Then(rest, nx)), s, m, j);
      FirstComplete(c, s, i, j);
    } else {
      AdvanceIsMatch(a, s, i, m);
      FirstComplete(Then(rest, nx), s, m, j);
    }
  }

  lemma {:induction false} StarComplete(x: Atom, rest: Branch, nx: Cont, s: seq<Chr>, i: nat, j: nat)
    requires i <= |s| && ContMatches(Then(Cons(Piece(x, true), rest), nx), s, i, j)
    ensures First(Then(Cons(Piece(x, true), rest), nx), s, i).Some?
    decreases |s| - i, Weight(Then(Cons(Piece(x, true), rest), nx), i) - 1, 1
  {
    var k := Then(rest, nx);
    WeightThen(Piece(x, true), rest, nx, i);
    var e := ThenElim(Piece(x, true), rest, nx, s, i, j);
    var n := StarElim(Piece(x, true), s, i, e);
    if Simple(x) {
      SimpleTimes(x, n, s, i, e);
      DownComplete(k, s, i, Repeat(x, s, i), n, j);
    } else if e == i {
      FirstComplete(Leave(k), s, i, j);
    } else {
      var m, n' := FirstConsumingTime(x, n, s, i, e);
      AtomInText(x, s, i, m);
      assert PieceMatches(Piece(x, true), s, m, e);
      assert ContMatches(Again(x, i, k), s, m, j);
      assert BranchMatches(Nil, s, m, m);
      ThenIntro(Piece(x, false), Nil, Again(x, i, k), s, i, m, j);
      FirstComplete(Then(Cons(Piece(x, false), Nil), Again(x, i, k)), s, i, j);
    }
  }

  lemma {:induction false} DownComplete(k: Cont, s: seq<Chr>, i: nat, n: nat, t: nat, j: nat)
    requires t <= n && i + n <= |s| && ContMatches(k, s, i + t, j)
    ensures FirstDown(k, s, i, n).Some?
    decreases |s| - i, Weight(k, i) + 1, n
  {
    if t == n { FirstComplete(k, s, i + n, j); } else { DownComplete(k, s, i, n - 1, t, j); }
  }

  // ---- which match is found first -----------------------------------------

  ghost predicate Can(k: Cont, s: seq<Chr>, i: nat) { exists j: nat :: ContMatches(k, s, i, j) }

  lemma FirstIff(k: Cont, s: seq<Chr>, i: nat)
    requires i <= |s|
    ensures First(k, s, i).Some? <==> Can(k, s, i)
  {
    if First(k, s, i).Some? { FirstSound(k, s, i); }
    if j: nat :| ContMatches(k, s, i, j) { FirstComplete(k, s, i, j); }
  }

  /** Of the alternatives the first one that leads to a match is taken. */
  lemma FirstBranch(b: Branch, rest: Alts, nx: Cont, s: seq<Chr>, i: nat)
    requires i <= |s|
    ensures First(Choice(More(b, rest), nx), s, i)
         == if Can(Then(b, nx), s, i) then First(Then(b, nx), s, i) else First(Choice(rest, nx), s, i)
  {
    FirstIff(Then(b, nx), s, i);
  }

  ghost predicate CanAt(k: Cont, s: seq<Chr>, i: nat, m: nat) { Can(k, s, i + m) }

  /** A star over a simple operand takes as many as it can so that the rest still matches. */
  lemma Greedy(x: Atom, rest: Branch, nx: Cont, s: seq<Chr>, i: nat, n: nat)
    requires Simple(x) && i <= |s| && Times(x, n, s, i, i + n) && CanAt(Then(rest, nx), s, i, n)
    requires forall m: nat | m > n && CanAt(Then(rest, nx), s, i, m) :: !Times(x, m, s, i, i + m)
    ensures i + n <= |s| && First(Then(Cons(Piece(x, true), rest), nx), s, i) == First(Then(rest, nx), s, i + n)
  {
    hide CanAt;
    var k := Then(rest, nx);
    SimpleTimes(x, n, s, i, i + n);
    forall m: nat | n < m <= Repeat(x, s, i) ensures !CanAt(k, s, i, m) { RepeatTimes(x, m, s, i); }
    DownTo(k, s, i, Repeat(x, s, i), n);
  }

  lemma {:induction false} DownTo(k: Cont, s: seq<Chr>, i: nat, r: nat, n: nat)
    requires n <= r && i + r <= |s| && CanAt(k, s, i, n) && forall m: nat | n < m <= r :: !CanAt(k, s, i, m)
    ensures FirstDown(k, s, i, r) == First(k, s, i + n)
    decreases r
  {
    hide First, Can;
    FirstIff(k, s, i + r);
    assert n < r ==> !CanAt(k, s, i, r);
    if n < r { DownTo(k, s, i, r - 1, n); }
  }

  /** A star over any other operand goes around once more, consuming something, if it can. */
  lemma GoesAround(x: Atom, rest: Branch, nx: Cont, s: seq<Chr>, i: nat)
    requires !Simple(x) && i <= |s|
    ensures var once := Then(Cons(Piece(x, false), Nil), Again(x, i, Then(rest, nx)));
            First(Then(Cons(Piece(x, true), rest), nx), s, i)
            == if Can(once, s, i) then First(once, s, i) else First(Then(rest, nx), s, i)
  {
    FirstIff(Then(Cons(Piece(x, false), Nil), Again(x, i, Then(rest, nx))), s, i);
  }

  /** Some match of the pattern starts at i. */
  ghost predicate MatchesAt(a: Alts, s: seq<Chr>, i: nat) {
    exists j: nat :: AltsMatch(a, s, i, j)
  }

  /** The search decides matching of a whole pattern at a position. */
  lemma SearchDecides(a: Alts, s: seq<Chr>, i: nat)
    requires i <= |s|
    ensures var r := First(Choice(a, Done), s, i);
            && (r.Some? <==> MatchesAt(a, s, i))
            && (r.Some? ==> AltsMatch(a, s, i, r.value.end))
  {
    var k := Choice(a, Done);
    var r := First(k, s, i);
    if r.Some? {
      FirstSound(k, s, i);
      var m: nat :| AltsMatch(a, s, i, m) && ContMatches(Done, s, m, r.value.end);
      assert AltsMatch(a, s, i, r.value.end);
    }
    if MatchesAt(a, s, i) {
      var j: nat :| AltsMatch(a, s, i, j);
      AltsInText(a, s, i, j);
      assert ContMatches(Done, s, j, j);
      FirstComplete(k, s, i, j);
    }
  }
}
