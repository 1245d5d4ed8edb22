/** Saving into a growing buffer and restoring in place (src/object.c). */
module SaveObject {
  import opened SaveText
  import opened SaveRoundTrip

  // ---- saving -------------------------------------------------------------------------

  class SaveBuf {
    var size: nat
    var buf: array<char>

    ghost predicate Valid()
      reads this, buf
    {
      size < buf.Length && buf[size] == '\0' && '\0' !in buf[..size]
    }

    ghost function Text(): string
      requires Valid()
      reads this, buf
    {
      buf[..size]
    }

    constructor ()
      ensures Valid() && Text() == "" && fresh(buf)
    {
      size := 0;
      buf := new char[80](_ => '\0');
    }

    /** strcpy to an offset. */
    static method StrCpy(dst: array<char>, at: nat, s: string)
      requires at + |s| < dst.Length
      modifies dst
      ensures dst[..at + |s| + 1] == old(dst[..at]) + s + ['\0']
    {
      var i := 0;
      while i < |s|
        modifies dst
        invariant i <= |s| && dst[..at + i] == old(dst[..at]) + s[..i]
      {
        dst[at + i] := s[i];
        i := i + 1;
      }
      dst[at + |s|] := '\0';
    }

    /** add_strbuf: the buffer grows when there is no room. */
    method AddStr(str: string)
      requires Valid() && '\0' !in str
      modifies this, buf
      ensures Valid() && Text() == old(Text()) + str && (buf == old(buf) || fresh(buf))
    {
      if size + |str| + 1 > buf.Length { Grow(|str| + size + 80); }
      StrCpy(buf, size, str);
      ghost var was := old(buf[..size]);
      assert buf[..size + |str|] == buf[..size + |str| + 1][..size + |str|];
      assert buf[..size + |str|] == was + str;
      size := size + |str|;
    }

    /** A larger buffer with the same text. */
    method Grow(nsize: nat)
      requires Valid() && nsize > size
      modifies this`buf
      ensures Valid() && Text() == old(Text()) && fresh(buf) && buf.Length == nsize && size == old(size)
    {
      var nbuf := new char[nsize](_ => '\0');
      StrCpy(nbuf, 0, buf[..size]);
      assert nbuf[..size] == nbuf[..size + 1][..size];
      assert nbuf[size] == nbuf[..size + 1][size];
      buf := nbuf;
    }

    method SaveString(s: string)
      requires Valid() && '\0' !in s
      modifies this, buf
      ensures Valid() && Text() == old(Text()) + Print(Str(s)) && (buf == old(buf) || fresh(buf))
    {
      hide Valid;
      ghost var before := Text();
      AddStr("\"");
      var i := 0;
      while i < |s|
        invariant Valid() && i <= |s| && (buf == old(buf) || fresh(buf))
        invariant Text() + (Escape(s[i..]) + "\"") == before + Print(Str(s))
      {
        EscapeStep(s, i);
        ghost var was := Text();
        AddStr(EscapeChar(s[i]));
        Assoc(was, EscapeChar(s[i]), Escape(s[i + 1..]) + "\"");
        Assoc(EscapeChar(s[i]), Escape(s[i + 1..]), "\"");
        i := i + 1;
      }
      AddStr("\"");
    }

    /** save_one: the printed value is appended. */
    method SaveOne(v: Value)
      requires Valid() && NoNul(v)
      modifies this, buf
      ensures Valid() && Text() == old(Text()) + Print(v) && (buf == old(buf) || fresh(buf))
      decreases v
    {
      match v {
        case Num(n) => AddStr(Decimal(n));
        case Str(s) => SaveString(s);
        case Arr(_) => SaveArray(v);
        case Map(_) => SaveMapping(v);
      }
    }

    method SaveArray(v: Value)
      requires Valid() && v.Arr? && NoNul(v)
      modifies this, buf
      ensures Valid() && Text() == old(Text()) + Print(v) && (buf == old(buf) || fresh(buf))
      decreases v, 1
    {
      hide Valid;
      ghost var before := Text();
      AddStr("({");
      var i := 0;
      Assoc(before, "({", PrintItems(v, 0) + "})");
      while i < |v.items|
        invariant Valid() && i <= |v.items| && (buf == old(buf) || fresh(buf))
        invariant Text() + (PrintItems(v, i) + "})") == before + Print(v)
      {
        ghost var was, item, tail := Text(), Print(v.items[i]), PrintItems(v, i + 1) + "})";
        SaveOne(v.items[i]);
        AddStr(",");
        assert PrintItems(v, i) + "})" == item + ("," + tail) by {
          Assoc(item, "," + PrintItems(v, i + 1), "})");
          Assoc(",", PrintItems(v, i + 1), "})");
        }
        Assoc(was, item, "," + tail);
        Assoc(was + item, ",", tail);
        i := i + 1;
      }
      AddStr("})");
    }

    method SaveMapping(v: Value)
      requires Valid() && v.Map? && NoNul(v)
      modifies this, buf
      ensures Valid() && Text() == old(Text()) + Print(v) && (buf == old(buf) || fresh(buf))
      decreases v, 1
    {
      hide Valid;
      ghost var before := Text();
      AddStr("([");
      var i := 0;
      Assoc(before, "([", PrintPairs(v, 0) + "])");
      while i < |v.pairs|
        invariant Valid() && i <= |v.pairs| && (buf == old(buf) || fresh(buf))
        invariant Text() + (PrintPairs(v, i) + "])") == before + Print(v)
      {
        PairPrinted(v, i, Text());
        SavePair(v.pairs[i]);
        i := i + 1;
      }
      AddStr("])");
    }

    method SavePair(p: Pair)
      requires Valid() && NoNul(p.key) && NoNul(p.val)
      modifies this, buf
      ensures Valid() && Text() == old(Text()) + PrintPair(p) && (buf == old(buf) || fresh(buf))
      decreases p
    {
      hide Valid, Print, Parse, Suffix;
      ghost var was := Text();
      SaveOne(p.key);
      AddStr(":");
      SaveOne(p.val);
      AddStr(",");
      assert (((was + Print(p.key)) + ":") + Print(p.val)) + "," == was + PrintPair(p);
    }
  }

  function PrintPair(p: Pair): string { Print(p.key) + (":" + (Print(p.val) + ",")) }

  lemma PairPrinted(v: Value, i: nat, was: string)
    requires v.Map? && i < |v.pairs|
    ensures was + (PrintPairs(v, i) + "])") == (was + PrintPair(v.pairs[i])) + (PrintPairs(v, i + 1) + "])")
  {
    hide Print;
    var k, x, tail := Print(v.pairs[i].key), Print(v.pairs[i].val), PrintPairs(v, i + 1);
    assert PrintPairs(v, i) == PrintPair(v.pairs[i]) + tail;
  }

  lemma EscapeStep(s: string, i: nat)
    requires i < |s|
    ensures Escape(s[i..]) == EscapeChar(s[i]) + Escape(s[i + 1..])
    ensures s[i] != '\0' ==> '\0' !in EscapeChar(s[i])
  {
    assert s[i..][1..] == s[i + 1..];
  }

  // ---- restoring ------------------------------------------------------------------------

  datatype Read = Got(value: Value, next: nat) | Failed(why: Why)

  /** What reading at p must come to: the result of the text as it was, and everything
      behind what was consumed, and in front of p, as it was. */
  ghost predicate Result(r: Read, was: string, now: string, p: nat, spec: Parsed<Value>) {
    && |now| == |was| && p <= |was| && now[..p] == was[..p]
    && match spec
       case Ok(v, rest) => |rest| <= |was| && r == Got(v, |was| - |rest|) && Intact(was, now, r.next)
           && was[r.next..] == rest
       case Bad(why) => r == Failed(why)
  }

  ghost predicate Intact(was: string, now: string, p: nat) {
    |now| == |was| && p <= |was| && now[p..] == was[p..]
  }

  predicate Readable(t: string, p: nat) { p < |t| && t[|t| - 1] == '\0' }

  /** The escapes of a string are resolved in place; the write cursor q stays behind the
      read cursor p. */
  method RestoreString(buf: array<char>, s: nat) returns (r: Read)
    requires Readable(buf[..], s) && buf[s] == '"'
    modifies buf
    ensures Result(r, old(buf[..]), buf[..], s, Parse(old(buf[..])[s..]))
  {
    hide Parse, Unquote, Scanning, Result;
    ghost var was := buf[..];
    ScanStart(was, s);
    var p, q := s + 1, s;
    while buf[p] != '\0' && buf[p] != '"'
      modifies buf
      invariant s <= q < p < buf.Length && Scanning(was, buf[..], s, p, q)
      decreases buf.Length - p
    {
      ghost var now := buf[..];
      if buf[p] == '\\' {
        EscapeAt(was, now, s, p, q);
        p := p + 1;
        if buf[p] == '\0' { return Failed(Overrun); }
        buf[q] := if buf[p] == 'n' then '\n' else buf[p];
      } else {
        PlainAt(was, now, s, p, q);
        buf[q] := if buf[p] == '\r' then '\n' else buf[p];
      }
      assert buf[..] == now[q := buf[q]];
      q := q + 1;
      p := p + 1;
    }
    ghost var now := buf[..];
    EndAt(was, now, s, p, q);
    buf[q] := '\0';
    assert buf[..] == now[q := '\0'] && now[s..q] == buf[s..q];
    if buf[p] != '"' { return Failed(Malformed); }
    r := Got(Str(buf[s..q]), p + 1);
  }

  lemma ScanStart(was: string, s: nat)
    requires Readable(was, s) && was[s] == '"'
    ensures s + 1 < |was| && Scanning(was, was, s, s + 1, s)
  {
    assert was[s..s] == "";
  }

  lemma StringParse(was: string, s: nat)
    requires s < |was| && was[s] == '"'
    ensures Parse(was[s..]) == var u := Unquote(was[s + 1..], "");
              if u.Ok? then Ok(Str(u.value), u.rest) else Bad(u.why)
  {
    hide ParseItems, ParsePairs, Atoi, Skip, Unquote;
    assert was[s..][0] == '"' && was[s..][1..] == was[s + 1..];
  }

  /** Between the cursors anything may be; before them is what has been decoded. */
  ghost predicate Scanning(was: string, now: string, s: nat, p: nat, q: nat) {
    && s <= q < p < |was| && |now| == |was| && now[|now| - 1] == '\0'
    && now[..s] == was[..s] && now[p..] == was[p..]
    && Unquote(was[s + 1..], "") == Unquote(was[p..], now[s..q])
  }

  lemma EscapeAt(was: string, now: string, s: nat, p: nat, q: nat)
    requires Scanning(was, now, s, p, q) && now[p] == '\\' && was[s] == '"'
    ensures p + 1 < |now| && (now[p + 1] == '\0' ==> Result(Failed(Overrun), was, now, s, Parse(was[s..])))
    ensures now[p + 1] != '\0' ==>
              p + 2 < |now| && Scanning(was, now[q := if now[p + 1] == 'n' then '\n' else now[p + 1]], s, p + 2, q + 1)
  {
    hide Parse;
    StringParse(was, s);
    var c := if now[p + 1] == 'n' then '\n' else now[p + 1];
    var t := was[p..];
    assert t == now[p..];
    assert t[0] == now[p] && t[1..][0] == now[p + 1] && t[2..] == was[p + 2..];
    assert now[q := c][s..q + 1] == now[s..q] + [c];
    assert now[q := c][p + 2..] == now[p + 2..] == now[p..][2..];
  }

  lemma PlainAt(was: string, now: string, s: nat, p: nat, q: nat)
    requires Scanning(was, now, s, p, q) && now[p] != '\\' && now[p] != '"' && now[p] != '\0'
    ensures p + 1 < |now| && Scanning(was, now[q := if now[p] == '\r' then '\n' else now[p]], s, p + 1, q + 1)
  {
    var c := if now[p] == '\r' then '\n' else now[p];
    var t := was[p..];
    assert t == now[p..];
    assert t[0] == now[p] && t[1..] == was[p + 1..];
    assert now[q := c][s..q + 1] == now[s..q] + [c];
    assert now[q := c][p + 1..] == now[p + 1..] == now[p..][1..];
  }

  lemma EndAt(was: string, now: string, s: nat, p: nat, q: nat)
    requires Scanning(was, now, s, p, q) && (now[p] == '"' || now[p] == '\0') && was[s] == '"'
    ensures now[q := '\0'][p] == now[p]
    ensures var r := if now[p] == '"' then Got(Str(now[s..q]), p + 1) else Failed(Malformed);
            Result(r, was, now[q := '\0'], s, Parse(was[s..]))
  {
    hide Parse, Unquote, Suffix;
    StringParse(was, s);
    var t, z := was[p..], now[q := '\0'];
    assert t == now[p..] && t[0] == now[p];
    UnquoteEnd(t, now[s..q]);
    assert t[1..] == was[p + 1..] && z[p + 1..] == now[p..][1..];
    assert z[..s] == now[..s];
  }

  lemma UnquoteEnd(t: string, acc: string)
    requires t != "" && (t[0] == '"' || t[0] == '\0')
    ensures Unquote(t, acc) == if t[0] == '"' then Ok(acc, t[1..]) else Bad(Malformed)
  {
  }

  /** restore_one. */
  method RestoreOne(buf: array<char>, p: nat) returns (r: Read)
    requires Readable(buf[..], p)
    modifies buf
    ensures Result(r, old(buf[..]), buf[..], p, Parse(old(buf[..])[p..]))
    decreases buf.Length - p, 0
  {
    hide Parse, ParseItems, ParsePairs, Result;
    ghost var was := buf[..];
    ParseAt(was, p);
    if buf[p] == '(' {
      if buf[p + 1] == '[' {
        r := RestoreMapping(buf, p + 2);
        Wider(r, was, buf[..], p + 2, p, ParsePairs(was[p + 2..], []));
      } else if buf[p + 1] == '{' {
        r := RestoreArray(buf, p + 2);
        Wider(r, was, buf[..], p + 2, p, ParseItems(was[p + 2..], []));
      } else {
        r := Failed(Malformed);
        NothingRead(was, p, Malformed);
      }
    } else if buf[p] == '"' {
      r := RestoreString(buf, p);
    } else if buf[p] == '$' || buf[p] == '#' {
      r := Failed(Foreign);
      NothingRead(was, p, Foreign);
    } else if !IsDigit(buf[p]) && buf[p] != '-' {
      r := Failed(Malformed);
      NothingRead(was, p, Malformed);
    } else {
      r := RestoreNumber(buf, p);
    }
  }

  lemma ParseAt(was: string, p: nat)
    requires Readable(was, p)
    ensures var c := was[p];
            && (c == '(' ==> p + 1 < |was| && var d := was[p + 1];
                             && (d == '[' ==> Readable(was, p + 2) && Parse(was[p..]) == ParsePairs(was[p + 2..], []))
                             && (d == '{' ==> Readable(was, p + 2) && Parse(was[p..]) == ParseItems(was[p + 2..], []))
                             && (d != '[' && d != '{' ==> Parse(was[p..]) == Bad(Malformed)))
            && (c == '$' || c == '#' ==> Parse(was[p..]) == Bad(Foreign))
            && (c !in ['(', '"', '$', '#'] ==>
                  Parse(was[p..]) == if Numeric(c) then Ok(Num(Atoi(was[p..])), Skip(was[p..])) else Bad(Malformed))
  {
    hide ParseItems, ParsePairs, Unquote, Atoi, Skip, Suffix, Terminated;
    var t := was[p..];
    assert t[0] == was[p];
    if was[p] == '(' { assert t[1..][0] == was[p + 1] && t[2..] == was[p + 2..]; }
  }

  lemma NothingRead(was: string, p: nat, why: Why)
    requires p <= |was|
    ensures Result(Failed(why), was, was, p, Bad(why))
  {
  }

  lemma Wider(r: Read, was: string, now: string, p: nat, q: nat, spec: Parsed<Value>)
    requires Result(r, was, now, p, spec) && q <= p
    ensures Result(r, was, now, q, spec)
  {
    assert now[..q] == now[..p][..q] && was[..q] == was[..p][..q];
  }

  method RestoreNumber(buf: array<char>, p: nat) returns (r: Read)
    requires Readable(buf[..], p) && Numeric(buf[p])
    ensures Result(r, buf[..], buf[..], p, Ok(Num(Atoi(buf[p..])), Skip(buf[p..])))
  {
    hide Atoi, Skip, Result, Terminated, Suffix, Intact;
    ghost var was := buf[..];
    assert was[p..] == buf[p..];
    var n := Atoi(buf[p..]);
    var s := p;
    while IsDigit(buf[s]) || buf[s] == '-'
      invariant p <= s < buf.Length && Skip(was[p..]) == Skip(was[s..])
      decreases buf.Length - s
    {
      SkipAt(was, s);
      s := s + 1;
    }
    SkipAt(was, s);
    r := Got(Num(n), s);
    NumberRead(was, p, s, n);
  }

  lemma SkipAt(was: string, s: nat)
    requires s < |was|
    ensures Skip(was[s..]) == if Numeric(was[s]) then Skip(was[s + 1..]) else was[s..]
  {
    assert was[s..][0] == was[s] && was[s..][1..] == was[s + 1..];
  }

  lemma NumberRead(was: string, p: nat, s: nat, n: int)
    requires p <= s <= |was|
    ensures Result(Got(Num(n), s), was, was, p, Ok(Num(n), was[s..]))
  {
  }

  /** restore_array, behind the opening bracket. */
  method RestoreArray(buf: array<char>, p: nat) returns (r: Read)
    requires Readable(buf[..], p)
    modifies buf
    ensures Result(r, old(buf[..]), buf[..], p, ParseItems(old(buf[..])[p..], []))
    decreases buf.Length - p, 1
  {
    hide Parse, ParseItems, ParsePairs, Result, AtItem;
    ghost var was := buf[..];
    var acc, i := [], p;
    ItemsStart(was, p);
    while true
      invariant p <= i < buf.Length == |was| && AtItem(was, buf[..], p, i, acc)
      decreases buf.Length - i
    {
      ItemAt(was, buf[..], p, i, acc);
      if buf[i] == '}' {
        if buf[i + 1] != ')' { return Failed(Malformed); }
        if |acc| > MAX_ARRAY_SIZE { return Failed(TooLarge); }
        return Got(Arr(acc), i + 2);
      }
      ghost var now := buf[..];
      var v := RestoreOne(buf, i);
      ItemRead(was, now, buf[..], p, i, acc, v);
      if v.Failed? { return v; }
      if buf[v.next] != ',' { return Failed(Malformed); }
      acc, i := acc + [v.value], v.next + 1;
    }
  }

  /** Reading the items goes on at i with acc read; what is ahead is untouched. */
  ghost predicate AtItem(was: string, now: string, p: nat, i: nat, acc: seq<Value>) {
    && p <= i && Readable(was, i) && Intact(was, now, i) && now[..p] == was[..p]
    && ParseItems(was[p..], []) == ParseItems(was[i..], acc)
  }

  lemma ItemsStart(was: string, p: nat)
    requires Readable(was, p)
    ensures AtItem(was, was, p, p, [])
  {
  }

  lemma ItemAt(was: string, now: string, p: nat, i: nat, acc: seq<Value>)
    requires AtItem(was, now, p, i, acc)
    ensures Readable(now, i) && now[i..] == was[i..] && now[i] == was[i]
    ensures var spec := ParseItems(was[p..], []);
            now[i] == '}' ==>
              && i + 1 < |now|
              && (now[i + 1] != ')' ==> Result(Failed(Malformed), was, now, p, spec))
              && (now[i + 1] == ')' && |acc| > MAX_ARRAY_SIZE ==> Result(Failed(TooLarge), was, now, p, spec))
              && (now[i + 1] == ')' && |acc| <= MAX_ARRAY_SIZE ==> Result(Got(Arr(acc), i + 2), was, now, p, spec))
  {
    hide Parse, Suffix;
    Ahead(was, now, i);
    if now[i] == '}' {
      ItemsClose(was[i..], acc);
      assert was[i..][1..] == was[i + 1..] && was[i..][2..] == was[i + 2..];
      if now[i + 1] == ')' { Ahead(was, now, i); }
    }
  }

  /** What is ahead of i is what it was. */
  lemma Ahead(was: string, now: string, i: nat)
    requires Readable(was, i) && Intact(was, now, i)
    ensures Readable(now, i) && now[i] == was[i]
    ensures forall k | i <= k < |was| :: now[k] == was[k]
    ensures forall k | i <= k <= |was| :: now[k..] == was[k..]
  {
    forall k | i <= k < |was|
      ensures now[k] == was[k]
    {
      assert now[k] == now[i..][k - i] && was[k] == was[i..][k - i];
    }
    forall k | i <= k <= |was|
      ensures now[k..] == was[k..]
    {
      assert now[k..] == now[i..][k - i..] && was[k..] == was[i..][k - i..];
    }
  }

  lemma ItemsClose(t: string, acc: seq<Value>)
    requires Terminated(t) && t[0] == '}'
    ensures |t| > 1
    ensures ParseItems(t, acc)
         == if t[1] != ')' then Bad(Malformed) else if |acc| <= MAX_ARRAY_SIZE then Ok(Arr(acc), t[2..])
             else Bad(TooLarge)
    ensures t[1] == ')' ==> |t| > 2
  {
    hide Parse;
    assert |t| > 1;
    assert t[1..][0] == t[1];
  }

  lemma ItemsNext(t: string, acc: seq<Value>)
    requires t != "" && t[0] != '}'
    ensures ParseItems(t, acc)
         == var v := Parse(t);
             if v.Bad? then v else if At(v.rest) != ',' then Bad(Malformed)
                 else ParseItems(v.rest[1..], acc + [v.value])
  {
    hide Parse;
  }

  lemma ItemRead(was: string, now: string, later: string, p: nat, i: nat, acc: seq<Value>, v: Read)
    requires AtItem(was, now, p, i, acc) && now[i] != '}' && Result(v, now, later, i, Parse(now[i..]))
    ensures |later| == |was| && (v.Failed? ==> Result(v, was, later, p, ParseItems(was[p..], [])))
    ensures v.Got? ==>
              && i < v.next < |later|
              && (later[v.next] != ',' ==> Result(Failed(Malformed), was, later, p, ParseItems(was[p..], [])))
              && (later[v.next] == ',' ==> v.next + 1 < |later| && AtItem(was, later, p, v.next + 1, acc + [v.value]))
  {
    hide Parse, ParseItems, Suffix;
    Ahead(was, now, i);
    ItemsNext(was[i..], acc);
    assert now[..p] == now[..i][..p] && later[..p] == later[..i][..p];
    if v.Got? {
      ParseEnds(was[i..]);
      assert Readable(was, v.next) && was[v.next..] == now[v.next..];
      Ahead(was, later, v.next);
      assert was[v.next..][0] == was[v.next] && was[v.next..][1..] == was[v.next + 1..];
    }
  }

  lemma ParseEnds(t: string)
    requires Terminated(t) && Parse(t).Ok?
    ensures Terminated(Parse(t).rest) && |Parse(t).rest| < |t|
  {
  }

  /** restore_mapping, behind the opening bracket. */
  method RestoreMapping(buf: array<char>, p: nat) returns (r: Read)
    requires Readable(buf[..], p)
    modifies buf
    ensures Result(r, old(buf[..]), buf[..], p, ParsePairs(old(buf[..])[p..], []))
    decreases buf.Length - p, 1
  {
    hide Parse, ParseItems, ParsePairs, Result, AtPair, AtValue, Put;
    ghost var was := buf[..];
    var acc, i := [], p;
    PairsStart(was, p);
    while true
      invariant p <= i < buf.Length == |was| && AtPair(was, buf[..], p, i, acc)
      decreases buf.Length - i
    {
      PairAt(was, buf[..], p, i, acc);
      if buf[i] == ']' {
        if buf[i + 1] != ')' { return Failed(Malformed); }
        return Got(Map(acc), i + 2);
      }
      ghost var now := buf[..];
      var k := RestoreOne(buf, i);
      KeyRead(was, now, buf[..], p, i, acc, k);
      if k.Failed? { return k; }
      if buf[k.next] != ':' { return Failed(Malformed); }
      if |Put(acc, k.value, Num(0))| > MAX_PAIRS { return Failed(TooLarge); }
      ghost var mid := buf[..];
      ValueAhead(was, mid, p, k.next + 1, acc, k.value);
      var v := RestoreOne(buf, k.next + 1);
      ValueRead(was, mid, buf[..], p, k.next + 1, acc, k.value, v);
      if v.Failed? { return v; }
      if buf[v.next] != ',' { return Failed(Malformed); }
      acc, i := Put(acc, k.value, v.value), v.next + 1;
    }
  }

  /** Reading the pairs goes on at i with acc read. */
  ghost predicate AtPair(was: string, now: string, p: nat, i: nat, acc: seq<Pair>) {
    && p <= i && Readable(was, i) && Intact(was, now, i) && now[..p] == was[..p]
    && ParsePairs(was[p..], []) == ParsePairs(was[i..], acc)
  }

  /** Reading goes on at i with the value of key k. */
  ghost predicate AtValue(was: string, now: string, p: nat, i: nat, acc: seq<Pair>, k: Value) {
    && p <= i && Readable(was, i) && Intact(was, now, i) && now[..p] == was[..p]
    && ParsePairs(was[p..], [])
       == var v := Parse(was[i..]);
          if v.Bad? then v else if At(v.rest) != ',' then Bad(Malformed)
              else ParsePairs(v.rest[1..], Put(acc, k, v.value))
  }

  lemma PairsStart(was: string, p: nat)
    requires Readable(was, p)
    ensures AtPair(was, was, p, p, [])
  {
  }

  lemma PairAt(was: string, now: string, p: nat, i: nat, acc: seq<Pair>)
    requires AtPair(was, now, p, i, acc)
    ensures Readable(now, i) && now[i..] == was[i..] && now[i] == was[i]
    ensures now[i] == ']' ==>
              && i + 1 < |now|
              && (now[i + 1] != ')' ==> Result(Failed(Malformed), was, now, p, ParsePairs(was[p..], [])))
              && (now[i + 1] == ')' ==> Result(Got(Map(acc), i + 2), was, now, p, ParsePairs(was[p..], [])))
  {
    hide Parse, Suffix;
    Ahead(was, now, i);
    if now[i] == ']' {
      PairsClose(was[i..], acc);
      assert was[i..][1..] == was[i + 1..] && was[i..][2..] == was[i + 2..];
    }
  }

  lemma PairsClose(t: string, acc: seq<Pair>)
    requires Terminated(t) && t[0] == ']'
    ensures |t| > 1 && ParsePairs(t, acc) == if t[1] != ')' then Bad(Malformed) else Ok(Map(acc), t[2..])
    ensures t[1] == ')' ==> |t| > 2
  {
    hide Parse;
    assert |t| > 1;
    assert t[1..][0] == t[1];
  }

  lemma PairsNext(t: string, acc: seq<Pair>)
    requires t != "" && t[0] != ']'
    ensures ParsePairs(t, acc)
         == var k := Parse(t);
            if k.Bad? then k
            else if At(k.rest) != ':' then Bad(Malformed)
            else if |Put(acc, k.value, Num(0))| > MAX_PAIRS then Bad(TooLarge)
            else
              var v := Parse(k.rest[1..]);
              if v.Bad? then v else if At(v.rest) != ',' then Bad(Malformed)
                  else ParsePairs(v.rest[1..], Put(acc, k.value, v.value))
  {
    hide Parse, Put;
  }

  lemma KeyRead(was: string, now: string, later: string, p: nat, i: nat, acc: seq<Pair>, k: Read)
    requires AtPair(was, now, p, i, acc) && now[i] != ']' && Result(k, now, later, i, Parse(now[i..]))
    ensures |later| == |was| && (k.Failed? ==> Result(k, was, later, p, ParsePairs(was[p..], [])))
    ensures k.Got? ==>
              && i < k.next < |later|
              && (later[k.next] != ':' ==> Result(Failed(Malformed), was, later, p, ParsePairs(was[p..], [])))
              && (later[k.next] == ':' ==>
                    && k.next + 1 < |later|
                    && if |Put(acc, k.value, Num(0))| > MAX_PAIRS
                       then Result(Failed(TooLarge), was, later, p, ParsePairs(was[p..], []))
                       else AtValue(was, later, p, k.next + 1, acc, k.value))
  {
    hide Parse, ParsePairs, Suffix, Put;
    Ahead(was, now, i);
    PairsNext(was[i..], acc);
    assert now[..p] == now[..i][..p] && later[..p] == later[..i][..p];
    if k.Got? {
      ParseEnds(was[i..]);
      assert Readable(was, k.next) && was[k.next..] == now[k.next..];
      Ahead(was, later, k.next);
      assert was[k.next..][0] == was[k.next] && was[k.next..][1..] == was[k.next + 1..];
    }
  }

  lemma ValueAhead(was: string, now: string, p: nat, i: nat, acc: seq<Pair>, k: Value)
    requires AtValue(was, now, p, i, acc, k)
    ensures Readable(now, i) && now[i..] == was[i..]
  {
    hide Parse, ParsePairs, Put;
    Ahead(was, now, i);
  }

  lemma ValueRead(was: string, now: string, later: string, p: nat, i: nat, acc: seq<Pair>, k: Value, v: Read)
    requires AtValue(was, now, p, i, acc, k) && Result(v, now, later, i, Parse(now[i..]))
    ensures |later| == |was| && (v.Failed? ==> Result(v, was, later, p, ParsePairs(was[p..], [])))
    ensures v.Got? ==>
              && i < v.next < |later|
              && (later[v.next] != ',' ==> Result(Failed(Malformed), was, later, p, ParsePairs(was[p..], [])))
              && (later[v.next] == ',' ==>
                  v.next + 1 < |later| && AtPair(was, later, p, v.next + 1, Put(acc, k, v.value)))
  {
    hide Parse, ParsePairs, Suffix, Put;
    Ahead(was, now, i);
    assert now[..p] == now[..i][..p] && later[..p] == later[..i][..p];
    if v.Got? {
      ParseEnds(was[i..]);
      assert Readable(was, v.next) && was[v.next..] == now[v.next..];
      Ahead(was, later, v.next);
      assert was[v.next..][0] == was[v.next] && was[v.next..][1..] == was[v.next + 1..];
    }
  }

  /** Saving a value and restoring it from the buffer, in place. */
  method SaveAndRestore(v: Value) returns (r: Read)
    requires NoNul(v)
    ensures r.Got? <==> Restorable(v)
    ensures r.Got? ==> r.value == Fix(v) && (Plain(v) ==> r.value == v) && r.next == |Print(v)|
    ensures r.Failed? ==> r.why == TooLarge
  {
    hide Parse, Restorable, Fix, Print;
    var f := new SaveBuf();
    f.SaveOne(v);
    var t := f.buf[..f.size + 1];
    var text := new char[|t|](i requires 0 <= i < |t| => t[i]);
    RoundTrip(v, "\0");
    if Plain(v) { FixPlain(v); }
    assert text[..] == Print(v) + "\0" && text[..][0..] == text[..];
    r := RestoreOne(text, 0);
  }
}
