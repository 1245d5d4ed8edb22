/** The pattern language of src/regexp.c: tokens, syntax trees and the grammar.

    regcomp first turns the pattern bytes into shorts.  A special character carries
    the SPECIAL bit (0x100); a byte above 127 is sign-extended and so is negative.
    Tokens are therefore modelled as integers with exactly those values.
 */
module RegexpSyntax {

  type Byte = b: int | 0 <= b < 256
  type Chr = c: int | 1 <= c < 256 witness 1
  type Token = int

  const SPECIAL := 0x100
  const LBRAC := '(' as int + SPECIAL
  const RBRAC := ')' as int + SPECIAL
  const ASTERIX := '*' as int + SPECIAL
  const OR_OP := '|' as int + SPECIAL
  const DOLLAR := '$' as int + SPECIAL
  const DOT := '.' as int + SPECIAL
  const CARET := '^' as int + SPECIAL
  const LSQBRAC := '[' as int + SPECIAL
  const RSQBRAC := ']' as int + SPECIAL
  const LSHBRAC := '<' as int + SPECIAL
  const RSHBRAC := '>' as int + SPECIAL
  const MINUS := '-' as int
  const NSUBEXP := 10

  /** The SPECIAL bit of a short. */
  predicate HasSpecial(t: Token) { t < 0 || t >= SPECIAL }

  /** A char read into a short: sign extension of bytes above 127. */
  function SignExtend(c: Chr): Token { if c < 128 then c else c - 256 }

  /** The (char) cast, and CHARBITS & t. */
  function LowByte(t: Token): Byte { t % 256 }

  // ---- tokens -------------------------------------------------------------

  datatype Option<+T> = None | Some(value: T)

  /** The token written for an unescaped character. */
  function PlainToken(c: Chr, excompat: bool): Token {
    if c == '(' as int || c == ')' as int then (if excompat then c else c + SPECIAL)
    else if c == '.' as int || c == '*' as int || c == '|' as int || c == '$' as int
            || c == '^' as int || c == '[' as int || c == ']' as int then c + SPECIAL
    else SignExtend(c)
  }

  /** The token written for a character after a backslash; None for the two
      unimplemented operators. */
  function EscapedToken(c: Chr, excompat: bool): Option<Token> {
    if c == '(' as int || c == ')' as int then Some(if excompat then c + SPECIAL else c)
    else if c == '<' as int || c == '>' as int then Some(c + SPECIAL)
    else if c == '{' as int || c == '}' as int then None
    else if c == 'b' as int then Some(8)
    else if c == 't' as int then Some(9)
    else if c == 'r' as int then Some(13)
    else Some(SignExtend(c))
  }

  const BACKSLASH := '\\' as int

  /** A pattern whose last backslash escapes nothing makes the scanner run past the
      terminating NUL; every other pattern is scanned within bounds. */
  predicate Escaped(p: seq<Chr>)
  {
    if p == [] then true
    else if p[0] != BACKSLASH then Escaped(p[1..])
    else |p| >= 2 && Escaped(p[2..])
  }

  /** The token sequence of a pattern. */
  function Tokens(p: seq<Chr>, excompat: bool): Option<seq<Token>>
    requires Escaped(p)
  {
    if p == [] then Some([])
    else if p[0] == BACKSLASH then
      match EscapedToken(p[1], excompat)
      case None => None
      case Some(t) => Prepend([t], Tokens(p[2..], excompat))
    else Prepend([PlainToken(p[0], excompat)], Tokens(p[1..], excompat))
  }

  /** Token values a scan can produce: never the terminator, low byte never NUL. */
  predicate GoodToken(t: Token) { -128 <= t < 512 && t % 256 != 0 }

  predicate GoodTokens(ts: seq<Token>) { forall i | 0 <= i < |ts| :: GoodToken(ts[i]) }

  lemma {:induction false} TokensAreGood(p: seq<Chr>, excompat: bool)
    requires Escaped(p)
    ensures Tokens(p, excompat).Some? ==> GoodTokens(Tokens(p, excompat).value)
  {
    if p == [] {
    } else if p[0] == BACKSLASH {
      TokensAreGood(p[2..], excompat);
    } else {
      TokensAreGood(p[1..], excompat);
    }
  }

  // ---- tokens written as a pattern ----------------------------------------

  /** The values a token can have: an operator with the SPECIAL bit, or a character. */
  predicate Writable(t: Token) {
    || t in [LBRAC, RBRAC, ASTERIX, OR_OP, DOLLAR, DOT, CARET, LSQBRAC, RSQBRAC, LSHBRAC, RSHBRAC]
    || -128 <= t < 0 || 0 < t < 128
  }

  /** How it is written: an operator as its character, or behind a backslash if that stands
      for the character; a character the other way around. */
  function Written(t: Token, excompat: bool): seq<Chr>
    requires Writable(t)
  {
    var c: Chr := LowByte(t);
    if t == LBRAC || t == RBRAC then if excompat then [BACKSLASH, c] else [c]
    else if t == LSHBRAC || t == RSHBRAC then [BACKSLASH, c]
    else if HasSpecial(t) && t > 0 then [c]
    else if t == '(' as int || t == ')' as int then if excompat then [c] else [BACKSLASH, c]
    else if t == BACKSLASH || t + SPECIAL in [ASTERIX, OR_OP, DOLLAR, DOT, CARET, LSQBRAC, RSQBRAC] then [BACKSLASH, c]
    else [c]
  }

  function AllWritten(ts: seq<Token>, excompat: bool): seq<Chr>
    requires forall i | 0 <= i < |ts| :: Writable(ts[i])
  {
    if ts == [] then [] else Written(ts[0], excompat) + AllWritten(ts[1..], excompat)
  }

  lemma WrittenBack(t: Token, excompat: bool)
    requires Writable(t)
    ensures var w := Written(t, excompat);
            if |w| == 1 then w[0] != BACKSLASH && PlainToken(w[0], excompat) == t
            else |w| == 2 && w[0] == BACKSLASH && EscapedToken(w[1], excompat) == Some(t)
  {
    if t >= SPECIAL { OperatorBack(t, excompat); } else { CharacterBack(t, excompat); }
  }

  lemma OperatorBack(t: Token, excompat: bool)
    requires Writable(t) && t >= SPECIAL
    ensures var w := Written(t, excompat);
            if |w| == 1 then w[0] != BACKSLASH && PlainToken(w[0], excompat) == t
            else |w| == 2 && w[0] == BACKSLASH && EscapedToken(w[1], excompat) == Some(t)
  {
    assert LowByte(t) == t - SPECIAL;
  }

  lemma CharacterBack(t: Token, excompat: bool)
    requires Writable(t) && t < SPECIAL
    ensures var w := Written(t, excompat);
            if |w| == 1 then w[0] != BACKSLASH && PlainToken(w[0], excompat) == t
            else |w| == 2 && w[0] == BACKSLASH && EscapedToken(w[1], excompat) == Some(t)
  {
    assert LowByte(t) == if t < 0 then t + 256 else t;
    hide LowByte;
  }

  /** Every list of tokens can be written as a pattern, and is scanned back. */
  lemma {:induction false} ScannedBack(ts: seq<Token>, excompat: bool)
    requires forall i | 0 <= i < |ts| :: Writable(ts[i])
    ensures var p := AllWritten(ts, excompat); Escaped(p) && Tokens(p, excompat) == Some(ts)
  {
    hide Written, PlainToken, EscapedToken, Writable;
    if ts != [] {
      ScannedBack(ts[1..], excompat);
      WrittenBack(ts[0], excompat);
      var w, rest := Written(ts[0], excompat), AllWritten(ts[1..], excompat);
      assert (w + rest)[|w|..] == rest && (w + rest)[0] == w[0] && [ts[0]] + ts[1..] == ts;
      assert |w| == 2 ==> (w + rest)[1] == w[1];
    }
  }

  /** Whatever is scanned is such a list, so that it has a pattern without needless escapes. */
  lemma {:induction false} AllWritable(p: seq<Chr>, excompat: bool)
    requires Escaped(p) && Tokens(p, excompat).Some?
    ensures forall i | 0 <= i < |Tokens(p, excompat).value| :: Writable(Tokens(p, excompat).value[i])
  {
    if p == [] {
    } else if p[0] == BACKSLASH {
      AllWritable(p[2..], excompat);
      WritableOne(p[1], excompat);
    } else {
      AllWritable(p[1..], excompat);
      WritableOne(p[0], excompat);
    }
  }

  lemma WritableOne(c: Chr, excompat: bool)
    ensures c != BACKSLASH ==> Writable(PlainToken(c, excompat))
    ensures EscapedToken(c, excompat).Some? ==> Writable(EscapedToken(c, excompat).value)
  {
  }

  /** A backslash and a letter for a backspace, a tab and a carriage return, the two
      operators there are not, and every other character standing for itself. */
  lemma Escapes(c: Chr, excompat: bool)
    ensures EscapedToken('b' as int, excompat) == Some(PlainToken(8, excompat))
    ensures EscapedToken('t' as int, excompat) == Some(PlainToken(9, excompat))
    ensures EscapedToken('r' as int, excompat) == Some(PlainToken(13, excompat))
    ensures EscapedToken(c, excompat) == None <==> c == '{' as int || c == '}' as int
    ensures LowByte(PlainToken(c, excompat)) == c
    ensures c !in ['b' as int, 't' as int, 'r' as int, '{' as int, '}' as int] ==>
              LowByte(EscapedToken(c, excompat).value) == c
  {
  }

  function Prepend<T>(dest: seq<T>, rest: Option<seq<T>>): Option<seq<T>> {
    match rest
    case None => None
    case Some(r) => Some(dest + r)
  }

  lemma PrependTwice<T>(a: seq<T>, b: seq<T>, rest: Option<seq<T>>)
    ensures Prepend(a, Prepend(b, rest)) == Prepend(a + b, rest)
  {
    if rest.Some? { assert a + (b + rest.value) == a + b + rest.value; }
  }

  /** The scanning loop of regcomp. */
  method Tokenize(p: seq<Chr>, excompat: bool) returns (r: Option<seq<Token>>)
    requires Escaped(p)
    ensures r == Tokens(p, excompat)
  {
    var dest: seq<Token> := [];
    var scan := 0;
    ghost var all := Tokens(p, excompat);
    assert p[0..] == p;
    assert all == Prepend([], all) by { if all.Some? { assert [] + all.value == all.value; } }
    while scan < |p|
      invariant 0 <= scan <= |p|
      invariant Escaped(p[scan..])
      invariant all == Prepend(dest, Tokens(p[scan..], excompat))
    {
      var c := p[scan];
      ghost var here := p[scan..];
      scan := scan + 1;
      assert p[scan..] == here[1..];
      if c == BACKSLASH {
        var t := EscapedToken(p[scan], excompat);
        scan := scan + 1;
        assert p[scan..] == here[2..];
        if t.None? { return None; }
        PrependTwice(dest, [t.value], Tokens(p[scan..], excompat));
        dest := dest + [t.value];
      } else {
        PrependTwice(dest, [PlainToken(c, excompat)], Tokens(p[scan..], excompat));
        dest := dest + [PlainToken(c, excompat)];
      }
    }
    assert p[scan..] == [] && dest + [] == dest;
    return Some(dest);
  }

  // ---- syntax trees -------------------------------------------------------

  datatype Atom =
    | Bol | Eol | Any | WordStart | WordEnd
    | AnyOf(body: seq<Token>)
    | AnyBut(body: seq<Token>)
    | Exactly(text: seq<Token>)
    | Group(n: nat, alts: Alts)

  datatype Piece = Piece(atom: Atom, star: bool)
  datatype Branch = Nil | Cons(head: Piece, tail: Branch)
  datatype Alts = Last(only: Branch) | More(first: Branch, others: Alts)

  /** HASWIDTH: the flag the compiler derives for "never matches the empty string". */
  predicate AtomWidth(a: Atom) {
    match a
    case Bol | Eol | WordStart | WordEnd => false
    case Any | AnyOf(_) | AnyBut(_) | Exactly(_) => true
    case Group(_, alts) => AltsWidth(alts)
  }
  predicate PieceWidth(p: Piece) { !p.star && AtomWidth(p.atom) }
  predicate BranchWidth(b: Branch) { b.Cons? && (PieceWidth(b.head) || BranchWidth(b.tail)) }
  predicate AltsWidth(a: Alts) {
    match a
    case Last(b) => BranchWidth(b)
    case More(b, rest) => BranchWidth(b) && AltsWidth(rest)
  }

  /** SIMPLE: one character per match. */
  predicate Simple(a: Atom) { a.Any? || a.AnyOf? || a.AnyBut? || (a.Exactly? && |a.text| == 1) }

  /** SPSTART: starts with a starred operand. */
  predicate AtomSp(a: Atom) { a.Group? && AltsSp(a.alts) }
  predicate PieceSp(p: Piece) { p.star || AtomSp(p.atom) }
  predicate BranchSp(b: Branch) { b.Cons? && PieceSp(b.head) }
  predicate AltsSp(a: Alts) {
    match a
    case Last(b) => BranchSp(b)
    case More(b, rest) => BranchSp(b) || AltsSp(rest)
  }

  // ---- bracket expressions ------------------------------------------------

  /** The bytes lo+1 .. hi. */
  function RangeBytes(lo: Byte, hi: Byte): seq<Byte>
    decreases hi - lo
  {
    if lo >= hi then [] else [lo + 1] + RangeBytes(lo + 1, hi)
  }

  /** The bytes emitted for the tokens of a bracket body from index k on; None when a
      range runs backwards.  The first token always stands for itself. */
  function ClassBytes(body: seq<Token>, k: nat): Option<seq<Byte>>
    requires k <= |body|
    decreases |body| - k
  {
    if k == |body| then Some([])
    else if k > 0 && body[k] == MINUS && k + 1 < |body| then
      var lo, hi := LowByte(body[k - 1]), LowByte(body[k + 1]);
      if lo > hi then None else Prepend(RangeBytes(lo, hi), ClassBytes(body, k + 2))
    else Prepend([LowByte(body[k])], ClassBytes(body, k + 1))
  }

  predicate GoodClass(body: seq<Token>) { body != [] && ClassBytes(body, 0).Some? }

  function ClassSet(body: seq<Token>): seq<Byte>
  {
    match ClassBytes(body, 0)
    case None => []
    case Some(s) => s
  }

  // ---- what a bracket expression means ------------------------------------

  /** The token at k is a minus between the two ends of a range: not the first one, not the
      last one, and not itself the upper end of a range. */
  predicate Dash(body: seq<Token>, k: int)
    decreases k
  {
    0 < k < |body| - 1 && body[k] == MINUS && !Dash(body, k - 1)
  }

  predicate Rises(body: seq<Token>, k: int)
    requires Dash(body, k)
  {
    LowByte(body[k - 1]) <= LowByte(body[k + 1])
  }

  /** c is one of the tokens but the minuses of ranges, or lies in one of the ranges. */
  predicate InClass(body: seq<Token>, c: Byte) {
    || (exists k | 0 <= k < |body| :: !Dash(body, k) && LowByte(body[k]) == c)
    || (exists k | 0 <= k < |body| :: Dash(body, k) && LowByte(body[k - 1]) <= c <= LowByte(body[k + 1]))
  }

  lemma {:induction false} RangeAt(lo: Byte, hi: Byte)
    ensures var r := RangeBytes(lo, hi);
            |r| == (if lo < hi then hi - lo else 0) && forall k | 0 <= k < |r| :: r[k] == lo + 1 + k
    decreases hi - lo
  {
    if lo < hi { RangeAt(lo + 1, hi); }
  }

  lemma RangeHas(lo: Byte, hi: Byte, c: Byte)
    ensures c in RangeBytes(lo, hi) <==> lo < c <= hi
  {
    RangeAt(lo, hi);
    if lo < c <= hi { assert RangeBytes(lo, hi)[c - lo - 1] == c; }
  }

  /** What the item at j, if there begins one, adds to the class. */
  predicate Adds(body: seq<Token>, j: nat, c: Byte) {
    j < |body| && !Dash(body, j - 1)
    && if Dash(body, j) then LowByte(body[j - 1]) < c <= LowByte(body[j + 1]) else LowByte(body[j]) == c
  }

  ghost predicate AllRise(body: seq<Token>, k: nat) {
    forall j: nat | k <= j < |body| && Dash(body, j) :: Rises(body, j)
  }

  ghost predicate AddsFrom(body: seq<Token>, k: nat, c: Byte) { exists j: nat :: k <= j && Adds(body, j, c) }

  lemma OneOn(body: seq<Token>, k: nat, c: Byte)
    requires k < |body|
    ensures AllRise(body, k) <==> AllRise(body, k + 1) && (Dash(body, k) ==> Rises(body, k))
    ensures AddsFrom(body, k, c) <==> AddsFrom(body, k + 1, c) || Adds(body, k, c)
  {
    hide Adds, Dash;
  }

  /** From an item on, the bytes are those of the items, and there are any if all ranges rise. */
  lemma {:induction false} ItemsFrom(body: seq<Token>, k: nat, c: Byte)
    requires k <= |body| && !Dash(body, k - 1)
    ensures ClassBytes(body, k).Some? <==> AllRise(body, k)
    ensures ClassBytes(body, k).Some? ==> (c in ClassBytes(body, k).value <==> AddsFrom(body, k, c))
    decreases |body| - k
  {
    hide RangeBytes, AllRise, AddsFrom;
    if k < |body| {
      OneOn(body, k, c);
      if Dash(body, k) {
        OneOn(body, k + 1, c);
        ItemsFrom(body, k + 2, c);
        RangeHas(LowByte(body[k - 1]), LowByte(body[k + 1]), c);
      } else {
        ItemsFrom(body, k + 1, c);
      }
    } else {
      NoneFrom(body, k, c);
    }
  }

  lemma NoneFrom(body: seq<Token>, k: nat, c: Byte)
    requires k == |body|
    ensures AllRise(body, k) && !AddsFrom(body, k, c)
  {
  }

  /** A token that is no minus of a range is in the class, if only as the end of one. */
  lemma {:induction false} TokenAdds(body: seq<Token>, j: nat)
    requires j < |body| && !Dash(body, j) && AllRise(body, 0)
    ensures AddsFrom(body, 0, LowByte(body[j]))
  {
    if Dash(body, j - 1) {
      assert Rises(body, j - 1);
      if LowByte(body[j - 2]) == LowByte(body[j]) {
        TokenAdds(body, j - 2);
      } else {
        assert Adds(body, j - 1, LowByte(body[j]));
      }
    } else {
      assert Adds(body, j, LowByte(body[j]));
    }
  }

  /** A bracket expression is accepted if and only if every range in it rises, and then
      stands for just the characters of its tokens and ranges. */
  lemma ClassMeaning(body: seq<Token>, c: Byte)
    ensures GoodClass(body) <==> body != [] && forall k: nat | k < |body| && Dash(body, k) :: Rises(body, k)
    ensures GoodClass(body) ==> (c in ClassSet(body) <==> InClass(body, c))
  {
    hide ClassBytes, LowByte;
    ItemsFrom(body, 0, c);
    if GoodClass(body) {
      if InClass(body, c) { InClassAdds(body, c); }
      if j: nat :| Adds(body, j, c) { AddsInClass(body, j, c); }
    }
  }

  lemma InClassAdds(body: seq<Token>, c: Byte)
    requires InClass(body, c) && AllRise(body, 0)
    ensures AddsFrom(body, 0, c)
  {
    if k: nat :| k < |body| && !Dash(body, k) && LowByte(body[k]) == c {
      TokenAdds(body, k);
    } else {
      var k: nat :| k < |body| && Dash(body, k) && LowByte(body[k - 1]) <= c <= LowByte(body[k + 1]);
      assert !Dash(body, k - 1) && Adds(body, k, c);
    }
  }

  lemma AddsInClass(body: seq<Token>, j: nat, c: Byte)
    requires Adds(body, j, c)
    ensures InClass(body, c)
  {
  }

  /** Index of the closing bracket at or after i, or |ts|. */
  function CloseBracket(ts: seq<Token>, i: nat): (r: nat)
    requires i <= |ts|
    ensures i <= r <= |ts|
    ensures r < |ts| ==> ts[r] == RSQBRAC
    ensures forall k | i <= k < r :: ts[k] != RSQBRAC
    decreases |ts| - i
  {
    if i == |ts| || ts[i] == RSQBRAC then i else CloseBracket(ts, i + 1)
  }

  // ---- grammar ------------------------------------------------------------

  /** *regparse; the token array ends in 0. */
  function Tok(ts: seq<Token>, i: nat): Token { if i < |ts| then ts[i] else 0 }

  datatype Parsed<+T> = Fail | Ok(value: T, pos: nat, npar: nat)

  /** Length of the run of ordinary characters at i. */
  function LitRun(ts: seq<Token>, i: nat): (n: nat)
    requires i <= |ts|
    ensures i + n <= |ts|
    ensures forall k | i <= k < i + n :: !HasSpecial(ts[k]) && ts[k] != 0
    ensures i + n == |ts| || HasSpecial(ts[i + n]) || ts[i + n] == 0
    decreases |ts| - i
  {
    if i < |ts| && ts[i] != 0 && !HasSpecial(ts[i]) then 1 + LitRun(ts, i + 1) else 0
  }

  /** The run minus its last character when a star would otherwise bind to it. */
  function LitLen(ts: seq<Token>, i: nat): (n: nat)
    requires i <= |ts|
    ensures n <= LitRun(ts, i)
    ensures n == 0 <==> LitRun(ts, i) == 0
  {
    var n := LitRun(ts, i);
    if n > 1 && Tok(ts, i + n) == ASTERIX then n - 1 else n
  }

  function ParseClass(ts: seq<Token>, at: nat, npar: nat, negated: bool): (r: Parsed<Atom>)
    requires at <= |ts|
    ensures r.Ok? ==> at < r.pos <= |ts|
  {
    var close := CloseBracket(ts, if Tok(ts, at) == RSQBRAC then at + 1 else at);
    if close == |ts| || !GoodClass(ts[at..close]) then Fail
    else Ok(if negated then AnyBut(ts[at..close]) else AnyOf(ts[at..close]), close + 1, npar)
  }

  /** A bracket expression, its opening bracket already absorbed. */
  function ParseBracket(ts: seq<Token>, pos: nat, npar: nat): (r: Parsed<Atom>)
    requires pos <= |ts|
    ensures r.Ok? ==> pos < r.pos <= |ts|
  {
    if Tok(ts, pos) == CARET then ParseClass(ts, pos + 1, npar, true) else ParseClass(ts, pos, npar, false)
  }

  function ParseAtom(ts: seq<Token>, pos: nat, npar: nat): (r: Parsed<Atom>)
    requires pos < |ts|
    ensures r.Ok? ==> pos < r.pos <= |ts|
    decreases |ts| - pos, 0
  {
    var t := ts[pos];
    if t == CARET then Ok(Bol, pos + 1, npar)
    else if t == DOLLAR then Ok(Eol, pos + 1, npar)
    else if t == DOT then Ok(Any, pos + 1, npar)
    else if t == LSHBRAC then Ok(WordStart, pos + 1, npar)
    else if t == RSHBRAC then Ok(WordEnd, pos + 1, npar)
    else if t == LSQBRAC then ParseBracket(ts, pos + 1, npar)
    else if t == LBRAC then ParseGroup(ts, pos + 1, npar)
    else
      var len := LitLen(ts, pos);
      if len == 0 then Fail else Ok(Exactly(ts[pos..pos + len]), pos + len, npar)
  }

  /** A group, its opening parenthesis already absorbed. */
  function ParseGroup(ts: seq<Token>, pos: nat, npar: nat): (r: Parsed<Atom>)
    requires pos <= |ts|
    ensures r.Ok? ==> r.value.Group?
    ensures r.Ok? ==> pos < r.pos <= |ts|
    decreases |ts| - pos, 4
  {
    if npar >= NSUBEXP then Fail
    else match ParseAlts(ts, pos, npar + 1)
         case Fail => Fail
         case Ok(alts, p, n) =>
           if Tok(ts, p) == RBRAC then Ok(Group(npar, alts), p + 1, n) else Fail
  }

  function ParsePiece(ts: seq<Token>, pos: nat, npar: nat): (r: Parsed<Piece>)
    requires pos < |ts|
    ensures r.Ok? ==> pos < r.pos <= |ts|
    decreases |ts| - pos, 1
  {
    match ParseAtom(ts, pos, npar)
    case Fail => Fail
    case Ok(a, p, n) =>
      if Tok(ts, p) != ASTERIX then Ok(Piece(a, false), p, n)
      else if !AtomWidth(a) || Tok(ts, p + 1) == ASTERIX then Fail
      else Ok(Piece(a, true), p + 1, n)
  }

  predicate EndsBranch(t: Token) { t == 0 || t == OR_OP || t == RBRAC }

  function ParseBranch(ts: seq<Token>, pos: nat, npar: nat): (r: Parsed<Branch>)
    requires pos <= |ts|
    ensures r.Ok? ==> pos <= r.pos <= |ts|
    decreases |ts| - pos, 2
  {
    if EndsBranch(Tok(ts, pos)) then Ok(Nil, pos, npar)
    else match ParsePiece(ts, pos, npar)
         case Fail => Fail
         case Ok(h, p, n) =>
           (match ParseBranch(ts, p, n)
            case Fail => Fail
            case Ok(t, p', n') => Ok(Cons(h, t), p', n'))
  }

  function ParseAlts(ts: seq<Token>, pos: nat, npar: nat): (r: Parsed<Alts>)
    requires pos <= |ts|
    ensures r.Ok? ==> pos <= r.pos <= |ts|
    decreases |ts| - pos, 3
  {
    match ParseBranch(ts, pos, npar)
    case Fail => Fail
    case Ok(b, p, n) =>
      if Tok(ts, p) != OR_OP then Ok(Last(b), p, n)
      else match ParseAlts(ts, p + 1, n)
           case Fail => Fail
           case Ok(rest, p', n') => Ok(More(b, rest), p', n')
  }

  /** The whole pattern: alternatives followed by the terminator. */
  function ParsePattern(ts: seq<Token>): (r: Parsed<Alts>)
  {
    match ParseAlts(ts, 0, 1)
    case Fail => Fail
    case Ok(alts, p, n) => if Tok(ts, p) == 0 then Ok(alts, p, n) else Fail
  }

  /** What reg() recognises: the body of a group, or the whole pattern. */
  function ParseReg(ts: seq<Token>, pos: nat, npar: nat, paren: bool): (r: Parsed<Alts>)
    requires pos <= |ts|
    ensures r.Ok? ==> pos <= r.pos <= |ts|
    ensures paren ==> ParseGroup(ts, pos, npar) == if r.Fail? then Fail else Ok(Group(npar, r.value), r.pos, r.npar)
    ensures !paren && pos == 0 && npar == 1 ==> r == ParsePattern(ts)
  {
    if paren && npar >= NSUBEXP then Fail
    else match ParseAlts(ts, pos, if paren then npar + 1 else npar)
         case Fail => Fail
         case Ok(alts, p, n) =>
           if paren then (if Tok(ts, p) == RBRAC then Ok(alts, p + 1, n) else Fail)
           else if Tok(ts, p) == 0 then Ok(alts, p, n) else Fail
  }

  // ---- what the grammar guarantees ----------------------------------------

  /** Trees the compiler accepts: bracket bodies expand, literals are non-empty runs of
      ordinary characters, group numbers stay below NSUBEXP, and a star only applies
      to an operand with HASWIDTH. */
  predicate GoodAtom(a: Atom) {
    match a
    case AnyOf(body) => GoodClass(body) && GoodTokens(body)
    case AnyBut(body) => GoodClass(body) && GoodTokens(body)
    case Exactly(text) => text != [] && forall k | 0 <= k < |text| :: 0 < text[k] < SPECIAL
    case Group(n, alts) => 1 <= n < NSUBEXP && GoodAlts(alts)
    case _ => true
  }
  predicate GoodPiece(p: Piece) { GoodAtom(p.atom) && (p.star ==> AtomWidth(p.atom)) }
  predicate GoodBranch(b: Branch) { b.Cons? ==> GoodPiece(b.head) && GoodBranch(b.tail) }
  predicate GoodAlts(a: Alts) {
    match a
    case Last(b) => GoodBranch(b)
    case More(b, rest) => GoodBranch(b) && GoodAlts(rest)
  }

  lemma {:induction false} ParseAtomGood(ts: seq<Token>, pos: nat, npar: nat)
    requires pos < |ts| && npar >= 1 && GoodTokens(ts)
    ensures var r := ParseAtom(ts, pos, npar); r.Ok? ==> GoodAtom(r.value) && r.npar >= npar
    decreases |ts| - pos, 0
  {
    if ts[pos] == LBRAC {
      ParseGroupGood(ts, pos + 1, npar);
    }
  }

  lemma {:induction false} ParseGroupGood(ts: seq<Token>, pos: nat, npar: nat)
    requires pos <= |ts| && npar >= 1 && GoodTokens(ts)
    ensures var r := ParseGroup(ts, pos, npar); r.Ok? ==> r.value.Group? && GoodAtom(r.value) && r.npar >= npar
    decreases |ts| - pos, 4
  {
    ParseAltsGood(ts, pos, npar + 1);
  }

  lemma {:induction false} ParsePieceGood(ts: seq<Token>, pos: nat, npar: nat)
    requires pos < |ts| && npar >= 1 && GoodTokens(ts)
    ensures var r := ParsePiece(ts, pos, npar); r.Ok? ==> GoodPiece(r.value) && r.npar >= npar
    decreases |ts| - pos, 1
  {
    ParseAtomGood(ts, pos, npar);
  }

  lemma {:induction false} ParseBranchGood(ts: seq<Token>, pos: nat, npar: nat)
    requires pos <= |ts| && npar >= 1 && GoodTokens(ts)
    ensures var r := ParseBranch(ts, pos, npar); r.Ok? ==> GoodBranch(r.value) && r.npar >= npar
    decreases |ts| - pos, 2
  {
    if !EndsBranch(Tok(ts, pos)) {
      ParsePieceGood(ts, pos, npar);
      var h := ParsePiece(ts, pos, npar);
      if h.Ok? { ParseBranchGood(ts, h.pos, h.npar); }
    }
  }

  lemma {:induction false} ParseAltsGood(ts: seq<Token>, pos: nat, npar: nat)
    requires pos <= |ts| && npar >= 1 && GoodTokens(ts)
    ensures var r := ParseAlts(ts, pos, npar); r.Ok? ==> GoodAlts(r.value) && r.npar >= npar
    decreases |ts| - pos, 3
  {
    ParseBranchGood(ts, pos, npar);
    var b := ParseBranch(ts, pos, npar);
    if b.Ok? && Tok(ts, b.pos) == OR_OP { ParseAltsGood(ts, b.pos + 1, b.npar); }
  }
}
