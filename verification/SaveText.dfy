/** The printed form of values and what reading it back gives (src/object.c).

    A mapping is given by its pairs, in the order in which its table is walked; a mapping
    that is read back, by its pairs in the order in which they were first put into it.
 */
module SaveText {

  const MAX_ARRAY_SIZE: nat := 5000
  /** What a mapping that starts empty can grow to. */
  const MAX_PAIRS: nat := 10240

  datatype Value = Num(n: int) | Str(s: string) | Arr(items: seq<Value>) | Map(pairs: seq<Pair>)
  datatype Pair = Pair(key: Value, val: Value)

  // ---- printing ---------------------------------------------------------------------

  function Digit(d: int): (c: char)
    requires 0 <= d < 10
    ensures IsDigit(c) && DigitValue(c) == d
  {
    '0' + d as char
  }

  predicate IsDigit(c: char) { '0' <= c <= '9' }

  function DigitValue(c: char): int
    requires IsDigit(c)
  {
    c as int - '0' as int
  }

  function Natural(n: nat): (s: string)
    ensures |s| > 0 && forall i | 0 <= i < |s| :: IsDigit(s[i])
  {
    if n < 10 then [Digit(n)] else Natural(n / 10) + [Digit(n % 10)]
  }

  function Decimal(n: int): string { if n < 0 then "-" + Natural(-n) else Natural(n) }

  function EscapeChar(c: char): string {
    if c == '"' then "\\\"" else if c == '\\' then "\\\\" else if c == '\n' then "\\n" else [c]
  }

  function Escape(s: string): string {
    if s == "" then "" else EscapeChar(s[0]) + Escape(s[1..])
  }

  function Print(v: Value): (t: string)
    decreases v
  {
    match v
    case Num(n) => Decimal(n)
    case Str(s) => "\"" + (Escape(s) + "\"")
    case Arr(_) => "({" + (PrintItems(v, 0) + "})")
    case Map(_) => "([" + (PrintPairs(v, 0) + "])")
  }

  function PrintItems(v: Value, i: nat): string
    requires v.Arr? && i <= |v.items|
    decreases v, |v.items| - i
  {
    if i == |v.items| then "" else Print(v.items[i]) + ("," + PrintItems(v, i + 1))
  }

  function PrintPairs(v: Value, i: nat): string
    requires v.Map? && i <= |v.pairs|
    decreases v, |v.pairs| - i
  {
    if i == |v.pairs| then "" else
    Print(v.pairs[i].key) + (":" + (Print(v.pairs[i].val) + ("," + PrintPairs(v, i + 1))))
  }

  /** How a string and a nested value look. */
  lemma ExampleString()
    ensures Print(Str("\"\n")) == "\"\\\"\\n\""
  {
    assert Escape("\n") == EscapeChar('\n') + Escape("");
    assert Escape("\"\n") == EscapeChar('"') + Escape("\n");
  }

  lemma ExampleNested()
    ensures Print(Arr([Map([Pair(Num(1), Num(-2))])])) == "({([1:-2,]),})"
  {
    var m := Map([Pair(Num(1), Num(-2))]);
    var v := Arr([m]);
    ExampleNumbers();
    hide Decimal;
    assert Print(m) == "([1:-2,])" by {
      assert PrintPairs(m, 0) == Print(Num(1)) + (":" + (Print(Num(-2)) + ("," + PrintPairs(m, 1))));
    }
    assert PrintItems(v, 0) == Print(m) + ("," + PrintItems(v, 1));
  }

  lemma ExampleNumbers()
    ensures Decimal(1) == "1" && Decimal(-2) == "-2"
  {
  }

  // ---- a printed value is one line ------------------------------------------------------

  lemma {:induction false} EscapeLine(s: string)
    ensures '\n' !in Escape(s)
  {
    if s != "" { EscapeLine(s[1..]); }
  }

  /** However values are nested and whatever their strings hold, the print has no newline:
      a file of saved values can be read a line at a time. */
  lemma {:induction false} OneLine(v: Value)
    ensures '\n' !in Print(v)
    decreases v
  {
    match v
    case Num(_) =>
    case Str(s) => EscapeLine(s);
    case Arr(_) => ItemsLine(v, 0);
    case Map(_) => PairsLine(v, 0);
  }

  lemma {:induction false} ItemsLine(v: Value, i: nat)
    requires v.Arr? && i <= |v.items|
    ensures '\n' !in PrintItems(v, i)
    decreases v, |v.items| - i
  {
    if i < |v.items| {
      OneLine(v.items[i]);
      ItemsLine(v, i + 1);
    }
  }

  lemma {:induction false} PairsLine(v: Value, i: nat)
    requires v.Map? && i <= |v.pairs|
    ensures '\n' !in PrintPairs(v, i)
    decreases v, |v.pairs| - i
  {
    if i < |v.pairs| {
      OneLine(v.pairs[i].key);
      OneLine(v.pairs[i].val);
      PairsLine(v, i + 1);
    }
  }

  // ---- what comes back ----------------------------------------------------------------

  /** Arrays and mappings are keys by identity, and what is read is always new. */
  predicate SameKey(a: Value, b: Value) { (a.Num? || a.Str?) && a == b }

  /** Assigning to the lvalue of a key. */
  function Put(l: seq<Pair>, k: Value, v: Value): seq<Pair> {
    if l == [] then [Pair(k, v)]
    else if SameKey(l[0].key, k) then [Pair(l[0].key, v)] + l[1..]
    else [l[0]] + Put(l[1..], k, v)
  }

  /** A key that is there gets the new value in its place; a new one comes last. */
  lemma {:induction false} PutAt(l: seq<Pair>, k: Value, v: Value, i: nat)
    requires i <= |l| && (forall j | 0 <= j < i :: !SameKey(l[j].key, k)) && (i < |l| ==> SameKey(l[i].key, k))
    ensures Put(l, k, v) == if i < |l| then l[i := Pair(l[i].key, v)] else l + [Pair(k, v)]
  {
    if i > 0 {
      PutAt(l[1..], k, v, i - 1);
      assert l == [l[0]] + l[1..];
    }
  }

  function FixString(s: string): string {
    if s == "" then "" else [if s[0] == '\r' then '\n' else s[0]] + FixString(s[1..])
  }

  /** The value with every carriage return in a string replaced by a newline; keys that
      become equal by this are one key, with the last value. */
  function Fix(v: Value): Value
    decreases v
  {
    match v
    case Num(_) => v
    case Str(s) => Str(FixString(s))
    case Arr(_) => Arr(FixItems(v, 0))
    case Map(_) => Map(FixPairs(v, 0, []))
  }

  function FixItems(v: Value, i: nat): (r: seq<Value>)
    requires v.Arr? && i <= |v.items|
    ensures |r| == |v.items| - i
    decreases v, |v.items| - i
  {
    if i == |v.items| then [] else [Fix(v.items[i])] + FixItems(v, i + 1)
  }

  function FixPairs(v: Value, i: nat, acc: seq<Pair>): seq<Pair>
    requires v.Map? && i <= |v.pairs|
    decreases v, |v.pairs| - i
  {
    if i == |v.pairs| then acc else FixPairs(v, i + 1, Put(acc, Fix(v.pairs[i].key), Fix(v.pairs[i].val)))
  }

  /** No array or mapping in it is too large to be made again. */
  predicate Restorable(v: Value)
    decreases v
  {
    match v
    case Num(_) => true
    case Str(_) => true
    case Arr(_) => ItemsOk(v, 0) && |v.items| <= MAX_ARRAY_SIZE
    case Map(_) => PairsOk(v, 0, [])
  }

  predicate ItemsOk(v: Value, i: nat)
    requires v.Arr? && i <= |v.items|
    decreases v, |v.items| - i
  {
    i < |v.items| ==> Restorable(v.items[i]) && ItemsOk(v, i + 1)
  }

  predicate PairsOk(v: Value, i: nat, acc: seq<Pair>)
    requires v.Map? && i <= |v.pairs|
    decreases v, |v.pairs| - i
  {
    i < |v.pairs| ==>
      && Restorable(v.pairs[i].key) && Restorable(v.pairs[i].val)
      && |Put(acc, Fix(v.pairs[i].key), Num(0))| <= MAX_PAIRS
      && PairsOk(v, i + 1, Put(acc, Fix(v.pairs[i].key), Fix(v.pairs[i].val)))
  }

  /** Strings of the driver hold no NUL. */
  predicate NoNul(v: Value)
    decreases v
  {
    match v
    case Num(_) => true
    case Str(s) => '\0' !in s
    case Arr(items) => forall i | 0 <= i < |items| :: NoNul(items[i])
    case Map(pairs) => forall i | 0 <= i < |pairs| :: NoNul(pairs[i].key) && NoNul(pairs[i].val)
  }

  // ---- reading --------------------------------------------------------------------------

  /** Why reading stops: the text is not the print of a value; a value would be too large,
      which is an error; the text ends in a backslash, and reading runs past its end; or
      there is a float or an object, which this model does not have. */
  datatype Why = Malformed | TooLarge | Overrun | Foreign

  datatype Parsed<T> = Ok(value: T, rest: string) | Bad(why: Why)

  predicate Suffix(rest: string, t: string) { |rest| < |t| && rest == t[|t| - |rest|..] }

  /** The text ends in a NUL. */
  predicate Terminated(t: string) { t != "" && t[|t| - 1] == '\0' }

  function At(t: string): char { if t == "" then '\0' else t[0] }

  function Unquote(t: string, acc: string): (r: Parsed<string>)
    ensures r.Ok? ==> Suffix(r.rest, t) && (Terminated(t) ==> Terminated(r.rest))
  {
    if t == "" then Bad(Overrun)
    else if t[0] == '\0' then Bad(Malformed)
    else if t[0] == '"' then Ok(acc, t[1..])
    else if t[0] == '\\' then
      if At(t[1..]) == '\0' then Bad(Overrun)
      else Unquote(t[2..], acc + [if t[1] == 'n' then '\n' else t[1]])
    else Unquote(t[1..], acc + [if t[0] == '\r' then '\n' else t[0]])
  }

  /** Digits and minus signs. */
  predicate Numeric(c: char) { IsDigit(c) || c == '-' }

  function Skip(t: string): (r: string)
    ensures |r| <= |t| && r == t[|t| - |r|..] && (Terminated(t) ==> Terminated(r))
  {
    if t != "" && Numeric(t[0]) then Skip(t[1..]) else t
  }

  function Digits(t: string, n: int): int {
    if t != "" && IsDigit(t[0]) then Digits(t[1..], 10 * n + DigitValue(t[0])) else n
  }

  /** atoi on a text that does not start with white space or a plus sign. */
  function Atoi(t: string): int {
    if At(t) == '-' then -Digits(t[1..], 0) else Digits(t, 0)
  }

  function Parse(t: string): (r: Parsed<Value>)
    ensures r.Ok? ==> Suffix(r.rest, t) && (Terminated(t) ==> Terminated(r.rest))
    decreases |t|, 1
  {
    if At(t) == '(' then
      if At(t[1..]) == '[' then ParsePairs(t[2..], [])
      else if At(t[1..]) == '{' then ParseItems(t[2..], [])
      else Bad(Malformed)
    else if At(t) == '"' then
      var s := Unquote(t[1..], "");
      if s.Ok? then Ok(Str(s.value), s.rest) else Bad(s.why)
    else if At(t) == '$' || At(t) == '#' then Bad(Foreign)
    else if Numeric(At(t)) then Ok(Num(Atoi(t)), Skip(t))
    else Bad(Malformed)
  }

  function ParseItems(t: string, acc: seq<Value>): (r: Parsed<Value>)
    ensures r.Ok? ==> Suffix(r.rest, t) && (Terminated(t) ==> Terminated(r.rest))
    decreases |t|, 2
  {
    if At(t) == '}' then
      if At(t[1..]) == ')' then
        if |acc| <= MAX_ARRAY_SIZE then Ok(Arr(acc), t[2..]) else Bad(TooLarge)
      else Bad(Malformed)
    else
      var v := Parse(t);
      if v.Bad? then v
      else if At(v.rest) != ',' then Bad(Malformed)
      else ParseItems(v.rest[1..], acc + [v.value])
  }

  function ParsePairs(t: string, acc: seq<Pair>): (r: Parsed<Value>)
    ensures r.Ok? ==> Suffix(r.rest, t) && (Terminated(t) ==> Terminated(r.rest))
    decreases |t|, 2
  {
    if At(t) == ']' then
      if At(t[1..]) == ')' then Ok(Map(acc), t[2..]) else Bad(Malformed)
    else
      var k := Parse(t);
      if k.Bad? then k
      else if At(k.rest) != ':' then Bad(Malformed)
      else if |Put(acc, k.value, Num(0))| > MAX_PAIRS then Bad(TooLarge)
      else
        var v := Parse(k.rest[1..]);
        if v.Bad? then v
        else if At(v.rest) != ',' then Bad(Malformed)
        else ParsePairs(v.rest[1..], Put(acc, k.value, v.value))
  }
}
