/** Reading undoes printing (src/object.c). */
module SaveRoundTrip {
  import opened SaveText

  lemma Assoc(a: string, b: string, c: string)
    ensures a + (b + c) == (a + b) + c
  {
  }

  // ---- numbers ----------------------------------------------------------------------

  lemma {:induction false} DigitsNatural(n: nat, t: string)
    ensures Digits(Natural(n) + t, 0) == Digits(t, n)
  {
    if n < 10 {
      DigitsOne(n, t, 0);
    } else {
      var d := [Digit(n % 10)];
      Assoc(Natural(n / 10), d, t);
      DigitsNatural(n / 10, d + t);
      DigitsOne(n % 10, t, n / 10);
    }
  }

  lemma DigitsOne(d: nat, t: string, n: int)
    requires d < 10
    ensures Digits([Digit(d)] + t, n) == Digits(t, 10 * n + d)
  {
    assert ([Digit(d)] + t)[1..] == t;
  }

  lemma {:induction false} SkipAll(s: string, rest: string)
    requires (forall i | 0 <= i < |s| :: Numeric(s[i])) && !Numeric(At(rest))
    ensures Skip(s + rest) == rest
  {
    if s == "" {
      assert s + rest == rest;
    } else {
      assert (s + rest)[1..] == s[1..] + rest;
      SkipAll(s[1..], rest);
    }
  }

  lemma AtoiBack(n: int, rest: string)
    requires !Numeric(At(rest))
    ensures Atoi(Decimal(n) + rest) == n
  {
    hide Natural;
    var m := if n < 0 then -n else n;
    DigitsNatural(m, rest);
    assert Digits(rest, m) == m;
    NaturalStart(m);
    if n < 0 { assert (Decimal(n) + rest)[1..] == Natural(m) + rest; }
  }

  lemma NaturalStart(n: nat)
    ensures Natural(n) != "" && IsDigit(Natural(n)[0]) && forall i | 0 <= i < |Natural(n)| :: Numeric(Natural(n)[i])
  {
  }

  lemma NumberBack(n: int, rest: string)
    requires !Numeric(At(rest))
    ensures Parse(Decimal(n) + rest) == Ok(Num(n), rest)
  {
    hide Natural, Atoi, Skip, Parse;
    NaturalStart(if n < 0 then -n else n);
    var d := Decimal(n);
    assert forall i | 0 <= i < |d| :: Numeric(d[i]);
    SkipAll(d, rest);
    AtoiBack(n, rest);
    hide Decimal;
    assert At(d + rest) == d[0];
    ParseNumber(d + rest);
  }

  lemma ParseNumber(t: string)
    requires Numeric(At(t))
    ensures Parse(t) == Ok(Num(Atoi(t)), Skip(t))
  {
    hide Atoi, Skip, Suffix;
  }

  // ---- strings ----------------------------------------------------------------------

  lemma {:induction false} UnquoteEscape(s: string, acc: string, rest: string)
    requires '\0' !in s
    ensures Unquote(Escape(s) + ("\"" + rest), acc) == Ok(acc + FixString(s), rest)
  {
    var tail := "\"" + rest;
    if s == "" {
      assert Escape(s) + tail == tail && tail[1..] == rest;
      assert acc + FixString(s) == acc;
    } else {
      var t := Escape(s[1..]) + tail;
      Assoc(EscapeChar(s[0]), Escape(s[1..]), tail);
      var c := if s[0] == '\r' then '\n' else s[0];
      UnquoteChar(s[0], t, acc);
      UnquoteEscape(s[1..], acc + [c], rest);
      assert acc + FixString(s) == (acc + [c]) + FixString(s[1..]);
    }
  }

  lemma UnquoteChar(c: char, t: string, acc: string)
    requires c != '\0'
    ensures Unquote(EscapeChar(c) + t, acc) == Unquote(t, acc + [if c == '\r' then '\n' else c])
  {
    var u := EscapeChar(c) + t;
    if |EscapeChar(c)| == 1 { assert u[1..] == t; } else { assert u[2..] == t && u[1..][0] == u[1]; }
  }

  lemma StringBack(s: string, rest: string)
    requires '\0' !in s
    ensures Parse(Print(Str(s)) + rest) == Ok(Fix(Str(s)), rest)
  {
    hide Unquote, Escape, FixString, Atoi, Skip, ParseItems, ParsePairs, PrintItems, PrintPairs;
    var t := Print(Str(s)) + rest;
    UnquoteEscape(s, "", rest);
    assert t[1..] == Escape(s) + ("\"" + rest);
    assert "" + FixString(s) == FixString(s);
  }

  // ---- all values ---------------------------------------------------------------------

  lemma PrintStart(v: Value)
    ensures Print(v) != "" && (Numeric(Print(v)[0]) || Print(v)[0] == '"' || Print(v)[0] == '(')
  {
  }

  ghost function Back(v: Value, rest: string): Parsed<Value> {
    if Restorable(v) then Ok(Fix(v), rest) else Bad(TooLarge)
  }

  /** A number must not be followed by more digits. */
  predicate Ended(v: Value, rest: string) { v.Num? ==> !Numeric(At(rest)) }

  /** Reading what was printed gives the value back, with carriage returns turned into
      newlines, and consumes exactly what was printed; or the value is too large. */
  lemma {:induction false} RoundTrip(v: Value, rest: string)
    requires NoNul(v) && Ended(v, rest)
    ensures Parse(Print(v) + rest) == Back(v, rest)
    decreases v
  {
    hide Unquote, Escape, FixString, Atoi, Skip, ParseItems, ParsePairs, PrintItems, PrintPairs, Natural, FixPairs,
        FixItems;
    match v
    case Num(n) => NumberBack(n, rest);
    case Str(s) => StringBack(s, rest);
    case Arr(_) =>
      var t := Print(v) + rest;
      assert t[2..] == PrintItems(v, 0) + ("})" + rest) && t[1..][0] == '{';
      ItemsBack(v, 0, [], rest);
      assert [] + FixItems(v, 0) == FixItems(v, 0);
    case Map(_) =>
      var t := Print(v) + rest;
      assert t[2..] == PrintPairs(v, 0) + ("])" + rest) && t[1..][0] == '[';
      PairsBack(v, 0, [], rest);
  }

  lemma {:induction false} ItemsBack(v: Value, i: nat, acc: seq<Value>, rest: string)
    requires v.Arr? && NoNul(v) && i <= |v.items| && |acc| == i
    ensures ParseItems(PrintItems(v, i) + ("})" + rest), acc)
         == if ItemsOk(v, i) && |v.items| <= MAX_ARRAY_SIZE then Ok(Arr(acc + FixItems(v, i)), rest) else Bad(TooLarge)
    decreases v, |v.items| - i
  {
    hide Print, Parse, Fix, Restorable, ParseItems;
    var tail := "})" + rest;
    if i == |v.items| {
      assert PrintItems(v, i) + tail == tail;
      ItemsEnd(acc, rest);
      assert acc + FixItems(v, i) == acc;
    } else {
      var x := v.items[i];
      var after := PrintItems(v, i + 1) + tail;
      assert PrintItems(v, i) + tail == Print(x) + ("," + after);
      RoundTrip(x, "," + after);
      ItemStep(x, after, acc);
      if Restorable(x) {
        ItemsBack(v, i + 1, acc + [Fix(x)], rest);
        assert acc + FixItems(v, i) == (acc + [Fix(x)]) + FixItems(v, i + 1);
      }
    }
  }

  lemma ItemsEnd(acc: seq<Value>, rest: string)
    ensures ParseItems("})" + rest, acc) == if |acc| <= MAX_ARRAY_SIZE then Ok(Arr(acc), rest) else Bad(TooLarge)
  {
    hide Parse;
    assert ("})" + rest)[1..][0] == ')' && ("})" + rest)[2..] == rest;
  }

  lemma PairsEnd(acc: seq<Pair>, rest: string)
    ensures ParsePairs("])" + rest, acc) == Ok(Map(acc), rest)
  {
    hide Parse;
    assert ("])" + rest)[1..][0] == ')' && ("])" + rest)[2..] == rest;
  }

  lemma ItemStep(x: Value, after: string, acc: seq<Value>)
    requires Parse(Print(x) + ("," + after)) == Back(x, "," + after)
    ensures ParseItems(Print(x) + ("," + after), acc)
         == if Restorable(x) then ParseItems(after, acc + [Fix(x)]) else Bad(TooLarge)
  {
    hide Print, Parse, Fix, Restorable;
    PrintStart(x);
    assert ("," + after)[1..] == after;
  }

  lemma {:induction false} PairsBack(v: Value, i: nat, acc: seq<Pair>, rest: string)
    requires v.Map? && NoNul(v) && i <= |v.pairs|
    ensures ParsePairs(PrintPairs(v, i) + ("])" + rest), acc)
         == if PairsOk(v, i, acc) then Ok(Map(FixPairs(v, i, acc)), rest) else Bad(TooLarge)
    decreases v, |v.pairs| - i
  {
    hide Print, Parse, Fix, Restorable, ParsePairs, Put;
    var tail := "])" + rest;
    if i == |v.pairs| {
      assert PrintPairs(v, i) + tail == tail;
      PairsEnd(acc, rest);
    } else {
      var k, x := v.pairs[i].key, v.pairs[i].val;
      var after := PrintPairs(v, i + 1) + tail;
      assert PrintPairs(v, i) + tail == Print(k) + (":" + (Print(x) + ("," + after)));
      RoundTrip(k, ":" + (Print(x) + ("," + after)));
      RoundTrip(x, "," + after);
      PairStep(k, x, after, acc);
      if Restorable(k) && Restorable(x) && |Put(acc, Fix(k), Num(0))| <= MAX_PAIRS {
        PairsBack(v, i + 1, Put(acc, Fix(k), Fix(x)), rest);
      }
    }
  }

  lemma PairStep(k: Value, x: Value, after: string, acc: seq<Pair>)
    requires var mid := Print(x) + ("," + after); Parse(Print(k) + (":" + mid)) == Back(k, ":" + mid)
    requires Parse(Print(x) + ("," + after)) == Back(x, "," + after)
    ensures ParsePairs(Print(k) + (":" + (Print(x) + ("," + after))), acc)
         == if Restorable(k) && Restorable(x) && |Put(acc, Fix(k), Num(0))| <= MAX_PAIRS
            then ParsePairs(after, Put(acc, Fix(k), Fix(x))) else Bad(TooLarge)
  {
    hide Print, Parse, Fix, Restorable, Put;
    var mid := Print(x) + ("," + after);
    PrintStart(k);
    assert (":" + mid)[1..] == mid && ("," + after)[1..] == after;
  }

  // ---- what comes back unchanged --------------------------------------------------------

  predicate DistinctKeys(l: seq<Pair>) {
    forall i, j | 0 <= i < j < |l| :: !SameKey(l[i].key, l[j].key)
  }

  /** No string holds a carriage return, and the keys of every mapping are different. */
  predicate Plain(v: Value)
    decreases v
  {
    match v
    case Num(_) => true
    case Str(s) => '\r' !in s
    case Arr(items) => forall i | 0 <= i < |items| :: Plain(items[i])
    case Map(pairs) => DistinctKeys(pairs) && forall i | 0 <= i < |pairs| :: Plain(pairs[i].key) && Plain(pairs[i].val)
  }

  lemma {:induction false} FixStringPlain(s: string)
    requires '\r' !in s
    ensures FixString(s) == s
  {
    if s != "" {
      FixStringPlain(s[1..]);
      assert s == [s[0]] + s[1..];
    }
  }

  lemma {:induction false} PutNew(l: seq<Pair>, k: Value, v: Value)
    requires forall i | 0 <= i < |l| :: !SameKey(l[i].key, k)
    ensures Put(l, k, v) == l + [Pair(k, v)]
  {
    if l != [] {
      PutNew(l[1..], k, v);
      assert l == [l[0]] + l[1..];
    }
  }

  lemma {:induction false} FixPlain(v: Value)
    requires Plain(v)
    ensures Fix(v) == v
    decreases v
  {
    match v
    case Num(_) =>
    case Str(s) => FixStringPlain(s);
    case Arr(items) =>
      FixItemsPlain(v, 0);
      assert items[0..] == items;
    case Map(pairs) =>
      FixPairsPlain(v, 0);
      assert pairs[..0] == [];
  }

  lemma {:induction false} FixItemsPlain(v: Value, i: nat)
    requires v.Arr? && Plain(v) && i <= |v.items|
    ensures FixItems(v, i) == v.items[i..]
    decreases v, |v.items| - i
  {
    if i < |v.items| {
      FixPlain(v.items[i]);
      FixItemsPlain(v, i + 1);
    }
  }

  lemma {:induction false} FixPairsPlain(v: Value, i: nat)
    requires v.Map? && Plain(v) && i <= |v.pairs|
    ensures FixPairs(v, i, v.pairs[..i]) == v.pairs
    decreases v, |v.pairs| - i
  {
    if i < |v.pairs| {
      var p := v.pairs[i];
      FixPlain(p.key);
      FixPlain(p.val);
      PutNew(v.pairs[..i], p.key, p.val);
      assert v.pairs[..i + 1] == v.pairs[..i] + [p];
      FixPairsPlain(v, i + 1);
    } else {
      assert v.pairs[..i] == v.pairs;
    }
  }

  // ---- and nothing else does ------------------------------------------------------------

  lemma {:induction false} FixStringClean(s: string)
    ensures '\r' !in FixString(s)
  {
    if s != "" { FixStringClean(s[1..]); }
  }

  lemma {:induction false} FixItemsAt(v: Value, i: nat, k: nat)
    requires v.Arr? && i <= k < |v.items|
    ensures FixItems(v, i)[k - i] == Fix(v.items[k])
    decreases |v.items| - i
  {
    hide Fix;
    if i < k { FixItemsAt(v, i + 1, k); }
  }

  /** A list grows by one exactly if the key is new, and then at its end. */
  lemma {:induction false} PutGrows(l: seq<Pair>, k: Value, v: Value)
    ensures |l| <= |Put(l, k, v)| <= |l| + 1
    ensures |Put(l, k, v)| == |l| + 1 ==>
              Put(l, k, v) == l + [Pair(k, v)] && forall i | 0 <= i < |l| :: !SameKey(l[i].key, k)
  {
    if l != [] {
      PutGrows(l[1..], k, v);
      assert l == [l[0]] + l[1..];
    }
  }

  /** As many pairs come out as went in only if every one was new. */
  lemma {:induction false} AllNew(v: Value, i: nat, acc: seq<Pair>)
    requires v.Map? && i <= |v.pairs|
    ensures var r := FixPairs(v, i, acc);
            |r| <= |acc| + |v.pairs| - i && (|r| == |acc| + |v.pairs| - i ==> acc <= r)
    decreases |v.pairs| - i
  {
    hide Fix, Put;
    if i < |v.pairs| {
      var p := v.pairs[i];
      PutGrows(acc, Fix(p.key), Fix(p.val));
      AllNew(v, i + 1, Put(acc, Fix(p.key), Fix(p.val)));
    }
  }

  lemma {:induction false} PairsFixed(v: Value, i: nat)
    requires v.Map? && i <= |v.pairs| && FixPairs(v, i, v.pairs[..i]) == v.pairs
    ensures forall k | i <= k < |v.pairs| ::
              Fix(v.pairs[k].key) == v.pairs[k].key && Fix(v.pairs[k].val) == v.pairs[k].val
    ensures forall j, k | 0 <= j < k < |v.pairs| && i <= k :: !SameKey(v.pairs[j].key, v.pairs[k].key)
    decreases |v.pairs| - i
  {
    hide Fix, Put, SameKey;
    if i < |v.pairs| {
      var p := v.pairs[i];
      var acc := Put(v.pairs[..i], Fix(p.key), Fix(p.val));
      PutGrows(v.pairs[..i], Fix(p.key), Fix(p.val));
      AllNew(v, i + 1, acc);
      assert |acc| == i + 1;
      assert acc == v.pairs[..i] + [Pair(Fix(p.key), Fix(p.val))] && acc <= v.pairs;
      assert v.pairs[i] == acc[i] && v.pairs[..i + 1] == acc;
      PairsFixed(v, i + 1);
      forall j | 0 <= j < i ensures !SameKey(v.pairs[j].key, v.pairs[i].key) { assert v.pairs[..i][j] == v.pairs[j]; }
    }
  }

  /** Only plain values come back as they were. */
  lemma {:induction false} PlainOnly(v: Value)
    requires Fix(v) == v
    ensures Plain(v)
    decreases v
  {
    match v
    case Num(_) =>
    case Str(s) => FixStringClean(s);
    case Arr(items) =>
      forall k | 0 <= k < |items| ensures Plain(items[k]) {
        FixItemsAt(v, 0, k);
        PlainOnly(items[k]);
      }
    case Map(pairs) =>
      assert pairs[..0] == [];
      PairsFixed(v, 0);
      forall k | 0 <= k < |pairs| ensures Plain(pairs[k].key) && Plain(pairs[k].val) {
        PlainOnly(pairs[k].key);
        PlainOnly(pairs[k].val);
      }
  }

  /** The law of saving and restoring: a value comes back unchanged if and only if it is
      plain and nothing in it is too large. */
  lemma Restored(v: Value, rest: string)
    requires NoNul(v) && Ended(v, rest)
    ensures Parse(Print(v) + rest) == Ok(v, rest) <==> Restorable(v) && Plain(v)
  {
    hide Parse, Print, Restorable, Fix, Plain;
    RoundTrip(v, rest);
    if Plain(v) { FixPlain(v); }
    if Fix(v) == v { PlainOnly(v); }
  }
}
