/** Taking strings apart at a delimiter and putting them together (src/array.c). */
module Explode {

  const MAX_ARRAY_SIZE: nat := 5000

  datatype Item = Text(s: string) | Else

  datatype Maybe<T> = None | Some(value: T)

  predicate Prefixed(s: string, d: string) { |d| <= |s| && s[..|d|] == d }

  /** The pieces of s between delimiters found from left to right; cur has been read. */
  function Pieces(s: string, d: string, cur: string): seq<string>
    requires d != ""
  {
    if s == "" then if cur == "" then [] else [cur]
    else if Prefixed(s, d) then [cur] + Pieces(s[|d|..], d, "")
    else Pieces(s[1..], d, cur + [s[0]])
  }

  /** The last thing found from left to right is a delimiter. */
  predicate Ends(s: string, d: string)
    requires d != ""
  {
    s != "" && if Prefixed(s, d) then s[|d|..] == "" || Ends(s[|d|..], d) else Ends(s[1..], d)
  }

  function Join(l: seq<string>, d: string): string {
    if l == [] then "" else if |l| == 1 then l[0] else l[0] + (d + Join(l[1..], d))
  }

  /** Imploding what was exploded gives the string back exactly if it does not end in a
      delimiter; otherwise that last delimiter is lost. */
  lemma {:induction false} ImplodeExplode(s: string, d: string, cur: string)
    requires d != ""
    ensures Join(Pieces(s, d, cur), d) + (if Ends(s, d) then d else "") == cur + s
    ensures Pieces(s, d, cur) == [] <==> s == "" && cur == ""
    decreases |s|, 1
  {
    if s == "" {
      assert cur + s == cur;
    } else if Prefixed(s, d) {
      HitBack(s, d, cur);
    } else {
      ImplodeExplode(s[1..], d, cur + [s[0]]);
      hide Join, Ends;
      assert (cur + [s[0]]) + s[1..] == cur + s;
      assert Ends(s, d) == Ends(s[1..], d) by { EndsMiss(s, d); }
    }
  }

  lemma EndsMiss(s: string, d: string)
    requires d != "" && s != "" && !Prefixed(s, d)
    ensures Ends(s, d) == Ends(s[1..], d)
  {
  }

  lemma {:induction false} HitBack(s: string, d: string, cur: string)
    requires d != "" && Prefixed(s, d)
    ensures Join(Pieces(s, d, cur), d) + (if Ends(s, d) then d else "") == cur + s && Pieces(s, d, cur) != []
    decreases |s|, 0
  {
    var rest := s[|d|..];
    ImplodeExplode(rest, d, "");
    var l := Pieces(rest, d, "");
    assert Pieces(s, d, cur) == [cur] + l;
    assert Ends(s, d) <==> rest == "" || Ends(rest, d);
    hide Pieces, Ends, Join;
    PiecesCons(cur, l, d);
    var j, tail := Join(l, d), if Ends(rest, d) then d else "";
    assert "" + rest == rest && s == d + rest;
    if rest == "" { assert s == d; } else { Regroup(cur, d, j, tail); }
  }

  lemma Regroup(a: string, b: string, c: string, e: string)
    ensures (a + (b + c)) + e == a + (b + (c + e))
  {
  }

  lemma PiecesCons(cur: string, l: seq<string>, d: string)
    ensures Join([cur] + l, d) == if l == [] then cur else cur + (d + Join(l, d))
  {
    assert ([cur] + l)[1..] == l;
  }

  lemma BackExactly(s: string, d: string)
    requires d != ""
    ensures Join(Pieces(s, d, ""), d) == s <==> !Ends(s, d)
  {
    ImplodeExplode(s, d, "");
    assert "" + s == s;
    assert |Join(Pieces(s, d, ""), d) + (if Ends(s, d) then d else "")| == |s|;
  }

  /** The text x, and x with a delimiter behind it, have no delimiter in them before |x|. */
  ghost predicate Clean(x: string, d: string, tail: string) { forall j | 0 <= j < |x| :: !Prefixed((x + tail)[j..], d) }

  /** Every piece goes up to the first delimiter after the one before it: with the delimiter
      behind it, or to the end of the string for the last, no other begins in it. */
  lemma {:induction false} PiecesClean(s: string, d: string, cur: string, i: nat)
    requires d != "" && Clean(cur, d, s) && i < |Pieces(s, d, cur)|
    ensures var l := Pieces(s, d, cur); Clean(l[i], d, if i < |l| - 1 || Ends(s, d) then d else "")
    decreases |s|
  {
    if s == "" {
      assert cur + "" == cur;
    } else if Prefixed(s, d) {
      var rest := s[|d|..];
      CleanHit(cur, d, s);
      if i > 0 { PiecesClean(rest, d, "", i - 1); }
      PiecesNone(rest, d);
    } else {
      CleanMiss(cur, d, s);
      EndsMiss(s, d);
      PiecesClean(s[1..], d, cur + [s[0]], i);
    }
  }

  lemma PiecesNone(s: string, d: string)
    requires d != ""
    ensures Pieces(s, d, "") == [] <==> s == ""
  {
    ImplodeExplode(s, d, "");
  }

  lemma CleanMiss(cur: string, d: string, s: string)
    requires s != "" && !Prefixed(s, d) && Clean(cur, d, s)
    ensures Clean(cur + [s[0]], d, s[1..])
  {
    var x := cur + [s[0]];
    assert x + s[1..] == cur + s;
    assert (cur + s)[|cur|..] == s;
  }

  lemma CleanHit(cur: string, d: string, s: string)
    requires Prefixed(s, d) && Clean(cur, d, s)
    ensures Clean(cur, d, d)
  {
    forall j | 0 <= j < |cur| ensures !Prefixed((cur + d)[j..], d) {
      if Prefixed((cur + d)[j..], d) { StillPrefixed(cur, d, s, j); }
    }
  }

  lemma StillPrefixed(cur: string, d: string, s: string, j: nat)
    requires Prefixed(s, d) && j <= |cur| && Prefixed((cur + d)[j..], d)
    ensures Prefixed((cur + s)[j..], d)
  {
    assert cur + s == (cur + d) + s[|d|..];
    assert (cur + s)[j..] == (cur + d)[j..] + s[|d|..];
  }

  /** With the empty delimiter: as many pieces as letters, each a letter, and all of them. */
  lemma {:induction false} LettersAre(s: string)
    ensures |Letters(s)| == |s| && forall i | 0 <= i < |s| :: Letters(s)[i] == [s[i]]
    ensures Join(Letters(s), "") == s
  {
    if s != "" {
      LettersAre(s[1..]);
      assert Letters(s) == [[s[0]]] + Letters(s[1..]);
      PiecesCons([s[0]], Letters(s[1..]), "");
      assert [s[0]] + ("" + s[1..]) == s;
    }
  }

  lemma PrefixAt(str: string, d: string, p: nat)
    requires p <= |str|
    ensures Prefixed(str[p..], d) <==> p + |d| <= |str| && str[p..p + |d|] == d
    ensures p + |d| <= |str| ==> str[p..][|d|..] == str[p + |d|..]
  {
    if p + |d| <= |str| { assert str[p..][..|d|] == str[p..p + |d|]; }
  }

  /** The counting pass of explode_string. */
  method CountPieces(str: string, d: string) returns (num: nat)
    requires d != ""
    ensures num == |Pieces(str, d, "")| + if str == "" then 1 else 0
  {
    var extra := true;
    num := 0;
    var p := 0;
    ghost var cur := "";
    assert str[0..] == str;
    while p < |str|
      invariant p <= |str| && |Pieces(str, d, "")| == num + |Pieces(str[p..], d, cur)|
      invariant p > 0 ==> (extra <==> cur != "")
      invariant p == 0 ==> extra && cur == ""
      decreases |str| - p
    {
      PrefixAt(str, d, p);
      if p + |d| <= |str| && str[p..p + |d|] == d {
        num, p, extra, cur := num + 1, p + |d|, false, "";
      } else {
        assert str[p..][1..] == str[p + 1..];
        cur := cur + [str[p]];
        p, extra := p + 1, true;
      }
    }
    if extra { num := num + 1; }
  }

  function Letters(s: string): seq<string> { seq(|s|, i requires 0 <= i < |s| => [s[i]]) }

  /** What explode_string is to give: the letters, if the delimiter is empty. */
  function Exploded(s: string, d: string): seq<string> { if d == "" then Letters(s) else Pieces(s, d, "") }

  /** explode_string: too many pieces for an array are an error, and there are never more
      than were counted. */
  method ExplodeString(str: string, d: string) returns (r: Maybe<seq<string>>)
    ensures r.None? <==> |Exploded(str, d)| > MAX_ARRAY_SIZE
    ensures r.Some? ==> r.value == Exploded(str, d)
  {
    if |d| == 0 { return if |str| > MAX_ARRAY_SIZE then None else Some(Letters(str)); }
    if |str| == 0 { return Some([]); }
    var n := CountPieces(str, d);
    if n > MAX_ARRAY_SIZE { return None; }
    var ret := FillPieces(str, d, n);
    r := Some(ret);
  }

  /** The filling pass. */
  method FillPieces(str: string, d: string, n: nat) returns (ret: seq<string>)
    requires d != "" && str != "" && n == |Pieces(str, d, "")|
    ensures ret == Pieces(str, d, "")
  {
    var a := new string[n](_ => "");
    var beg, p, num := 0, 0, 0;
    assert str[0..] == str && str[0..0] == "";
    while p < |str|
      modifies a
      invariant beg <= p <= |str| && num <= n
      invariant Pieces(str, d, "") == a[..num] + Pieces(str[p..], d, str[beg..p])
      decreases |str| - p
    {
      PrefixAt(str, d, p);
      ghost var whole := Pieces(str[p..], d, str[beg..p]);
      if p + |d| <= |str| && str[p..p + |d|] == d {
        assert num < n;
        a[num] := str[beg..p];
        num := num + 1;
        beg := p + |d|;
        p := beg;
        assert str[beg..p] == "";
      } else {
        assert str[p..][1..] == str[p + 1..] && str[beg..p] + [str[p]] == str[beg..p + 1];
        p := p + 1;
      }
    }
    assert str[p..] == "" && str[beg..p] == str[beg..];
    if beg < |str| {
      assert num < n;
      a[num] := str[beg..];
      num := num + 1;
    }
    ret := a[..];
  }

  // ---- implode --------------------------------------------------------------------------

  function Texts(arr: seq<Item>): seq<string> {
    if arr == [] then []
    else
      var l, x := Texts(arr[..|arr| - 1]), arr[|arr| - 1];
      if x.Text? then l + [x.s] else l
  }

  lemma {:induction false} JoinSnoc(l: seq<string>, x: string, d: string)
    ensures Join(l + [x], d) == if l == [] then x else Join(l, d) + (d + x)
  {
    if l == [] {
      assert l + [x] == [x];
    } else {
      assert (l + [x])[1..] == l[1..] + [x] && (l + [x])[0] == l[0];
      JoinSnoc(l[1..], x, d);
      if |l| > 1 { Regroup(l[0], d, Join(l[1..], d), d + x); }
    }
  }

  lemma TextsStep(arr: seq<Item>, i: nat)
    requires i < |arr|
    ensures Texts(arr[..i + 1]) == if arr[i].Text? then Texts(arr[..i]) + [arr[i].s] else Texts(arr[..i])
  {
    assert arr[..i + 1][..i] == arr[..i];
  }

  lemma {:induction false} TextsMore(arr: seq<Item>, i: nat, d: string)
    requires i <= |arr|
    ensures |Join(Texts(arr[..i]), d)| <= |Join(Texts(arr), d)|
    decreases |arr| - i
  {
    if i < |arr| {
      TextsMore(arr, i + 1, d);
      TextsStep(arr, i);
      if arr[i].Text? { JoinSnoc(Texts(arr[..i]), arr[i].s, d); }
    } else {
      assert arr[..i] == arr;
    }
  }

  /** implode_string: the strings of the array, joined in a buffer of exactly their size;
      what is not a string is skipped. */
  method ImplodeString(arr: seq<Item>, d: string) returns (r: string)
    ensures r == Join(Texts(arr), d)
  {
    hide Join, Texts;
    var size := JoinedSize(arr, d);
    var q := new char[size];
    var p, num, i := 0, 0, 0;
    NoTexts(arr, d);
    while i < |arr|
      modifies q
      invariant i <= |arr| && num == |Texts(arr[..i])| && p == |Join(Texts(arr[..i]), d)| <= size
      invariant q[..p] == Join(Texts(arr[..i]), d)
    {
      TextsStep(arr, i);
      TextsMore(arr, i + 1, d);
      if arr[i].Text? {
        JoinSnoc(Texts(arr[..i]), arr[i].s, d);
        p := AddText(q, p, if num > 0 then d else "", arr[i].s);
        num := num + 1;
      }
      i := i + 1;
    }
    assert arr[..i] == arr;
    r := q[..];
  }

  lemma NoTexts(arr: seq<Item>, d: string)
    ensures Texts(arr[..0]) == [] && Join([], d) == ""
  {
  }

  method AddText(q: array<char>, p: nat, d: string, s: string) returns (next: nat)
    requires p + |d| + |s| <= q.Length
    modifies q
    ensures next == p + |d + s| && q[..next] == old(q[..p]) + (d + s)
    ensures d == "" ==> d + s == s
  {
    ghost var was := q[..p];
    next := Copy(q, p, d);
    next := Copy(q, next, s);
    assert (was + d) + s == was + (d + s);
  }

  method Copy(q: array<char>, p: nat, s: string) returns (next: nat)
    requires p + |s| <= q.Length
    modifies q
    ensures next == p + |s| && q[..next] == old(q[..p]) + s
  {
    var i := 0;
    while i < |s|
      modifies q
      invariant i <= |s| && q[..p + i] == old(q[..p]) + s[..i]
    {
      q[p + i] := s[i];
      i := i + 1;
    }
    next := p + |s|;
  }

  /** The counting pass. */
  method JoinedSize(arr: seq<Item>, d: string) returns (size: nat)
    ensures size == |Join(Texts(arr), d)|
  {
    hide Join, Texts;
    size := 0;
    var num, i := 0, 0;
    NoTexts(arr, d);
    while i < |arr|
      invariant i <= |arr| && num == |Texts(arr[..i])|
      invariant |Join(Texts(arr[..i]), d)| == size + if num > 0 then (num - 1) * |d| else 0
    {
      TextsStep(arr, i);
      if arr[i].Text? {
        JoinSnoc(Texts(arr[..i]), arr[i].s, d);
        assert num > 0 ==> num * |d| == (num - 1) * |d| + |d|;
        size := size + |arr[i].s|;
        num := num + 1;
      }
      i := i + 1;
    }
    assert arr[..i] == arr;
    if num > 0 { size := size + (num - 1) * |d|; }
  }
}
