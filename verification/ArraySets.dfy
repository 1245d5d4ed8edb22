/** The array operators `-`, `&` and `|` (src/array.c), computed with a mapping. */
module ArraySets {
  import opened MappingTable
  import opened Mapping

  datatype Op = Subtract | Intersect

  /** The elements of a that are, or are not, in b: in order, with repetitions. */
  function Select(a: seq<Value>, b: seq<Value>, present: bool): (r: seq<Value>)
    ensures |r| <= |a|
    ensures multiset(r) <= multiset(a)
    ensures forall x :: x in r <==> x in a && (x in b) == present
    ensures forall x | (x in b) == present :: multiset(r)[x] == multiset(a)[x]
  {
    if a == [] then [] else
    var n := |a| - 1;
    assert a == a[..n] + [a[n]];
    if (a[n] in b) == present then Select(a[..n], b, present) + [a[n]] else Select(a[..n], b, present)
  }

  /** The order is kept: what is selected from two arrays end to end is what is selected
      from the one and then from the other. */
  lemma {:induction false} SelectConcat(a: seq<Value>, b: seq<Value>, c: seq<Value>, present: bool)
    ensures Select(a + b, c, present) == Select(a, c, present) + Select(b, c, present)
  {
    hide Select;
    if b == [] {
      assert a + b == a;
      SelectLast([], c, present);
    } else {
      var n := |b| - 1;
      SelectConcat(a, b[..n], c, present);
      assert (a + b)[..|a| + n] == a + b[..n];
      SelectLast(a + b, c, present);
      SelectLast(b, c, present);
    }
  }

  lemma SelectLast(a: seq<Value>, b: seq<Value>, present: bool)
    ensures a == [] ==> Select(a, b, present) == []
    ensures a != [] ==> Select(a, b, present) == Select(a[..|a| - 1], b, present)
                                               + if (a[|a| - 1] in b) == present then [a[|a| - 1]] else []
  {
  }

  /** The elements whose flags are set. */
  ghost function Flagged(a: seq<Value>, flags: seq<bool>): seq<Value>
    requires |flags| == |a|
  {
    if a == [] then [] else
    var n := |a| - 1;
    Flagged(a[..n], flags[..n]) + if flags[n] then [a[n]] else []
  }

  lemma {:induction false} FlaggedIsSelect(a: seq<Value>, flags: seq<bool>, b: seq<Value>, present: bool)
    requires |flags| == |a| && forall i | 0 <= i < |a| :: flags[i] <==> (a[i] in b) == present
    ensures Flagged(a, flags) == Select(a, b, present)
  {
    if a != [] { FlaggedIsSelect(a[..|a| - 1], flags[..|a| - 1], b, present); }
  }

  /** Which elements of a are keys of the mapping, and how many are wanted. */
  method Flag(a: seq<Value>, m: Mapping, present: bool) returns (flags: array<bool>, res: nat)
    requires m.Valid()
    ensures fresh(flags) && flags.Length == |a| && res == |Flagged(a, flags[..])|
    ensures forall i | 0 <= i < |a| :: flags[i] <==> (a[i] in m.contents) == present
  {
    hide Table, Capacity, FSize, PowerOfTwo;
    flags := new bool[|a|];
    res := 0;
    var cnt := 0;
    while cnt < |a|
      modifies flags
      invariant cnt <= |a| && res == |Flagged(a[..cnt], flags[..cnt])|
      invariant forall i | 0 <= i < cnt :: flags[i] <==> (a[i] in m.contents) == present
    {
      var v := m.Lookup(a[cnt]);
      flags[cnt] := v.Some? == present;
      if flags[cnt] { res := res + 1; }
      assert a[..cnt + 1][..cnt] == a[..cnt] && flags[..cnt + 1][..cnt] == flags[..cnt];
      cnt := cnt + 1;
    }
    assert a[..|a|] == a && flags[..|a|] == flags[..];
  }

  /** The flagged elements copied behind what r already holds. */
  method Collect(a: seq<Value>, flags: array<bool>, r: array<Value>, from: nat)
    requires flags.Length == |a| && r.Length == from + |Flagged(a, flags[..])|
    modifies r
    ensures r[..] == old(r[..from]) + Flagged(a, flags[..])
  {
    var cnt, res := 0, from;
    while cnt < |a|
      modifies r
      invariant cnt <= |a| && res == from + |Flagged(a[..cnt], flags[..cnt])| <= r.Length
      invariant r[..res] == old(r[..from]) + Flagged(a[..cnt], flags[..cnt])
    {
      FlaggedStep(a, flags[..], cnt);
      if flags[cnt] {
        FlaggedPrefix(a, flags[..], cnt + 1);
        r[res] := a[cnt];
        res := res + 1;
      }
      cnt := cnt + 1;
    }
    assert a[..|a|] == a && flags[..|a|] == flags[..];
  }

  lemma FlaggedStep(a: seq<Value>, flags: seq<bool>, n: nat)
    requires |flags| == |a| && n < |a|
    ensures Flagged(a[..n + 1], flags[..n + 1]) == Flagged(a[..n], flags[..n]) + if flags[n] then [a[n]] else []
  {
    assert a[..n + 1][..n] == a[..n] && flags[..n + 1][..n] == flags[..n];
  }

  lemma {:induction false} FlaggedPrefix(a: seq<Value>, flags: seq<bool>, n: nat)
    requires |flags| == |a| && n <= |a|
    ensures |Flagged(a[..n], flags[..n])| <= |Flagged(a, flags)|
  {
    if n < |a| {
      FlaggedPrefix(a[..|a| - 1], flags[..|a| - 1], n);
      assert a[..|a| - 1][..n] == a[..n] && flags[..|a| - 1][..n] == flags[..n];
    } else {
      assert a[..n] == a && flags[..n] == flags;
    }
  }

  /** set_manipulate_array. */
  method SetManipulate(arr1: seq<Value>, arr2: seq<Value>, op: Op, hash: Value -> int) returns (r: seq<Value>)
    requires |arr1| <= MAX_ARRAY_SIZE && |arr2| <= MAX_ARRAY_SIZE
    ensures r == Select(arr1, arr2, op.Intersect?)
  {
    hide Table, Capacity, FSize, PowerOfTwo, Flagged, Zipped;
    if |arr1| < 1 || |arr2| < 1 {
      SelectNone(arr1, arr2);
      return if op.Subtract? then arr1 else [];
    }
    var m := MakeMapping(Some(arr2), None, hash);
    assert forall k :: k in m.contents <==> k in arr2 by { assert arr2[..|arr2|] == arr2; }
    var _ := m.Put(arr2[0], Number(1));
    assert forall k :: k in m.contents <==> k in arr2;
    var flags, res := Flag(arr1, m, op.Intersect?);
    var a := new Value[res];
    Collect(arr1, flags, a, 0);
    FlaggedIsSelect(arr1, flags[..], arr2, op.Intersect?);
    r := a[..];
  }

  lemma {:induction false} SelectNone(a: seq<Value>, b: seq<Value>)
    requires a == [] || b == []
    ensures Select(a, b, false) == a && Select(a, b, true) == []
  {
    hide Select;
    SelectLast(a, b, false);
    SelectLast(a, b, true);
    if a != [] {
      SelectNone(a[..|a| - 1], b);
      assert a == a[..|a| - 1] + [a[|a| - 1]];
    }
  }

  /** union_array: the first array and what the second has besides.  An array that would
      be too large is an error. */
  method UnionArray(arr1: seq<Value>, arr2: seq<Value>, hash: Value -> int) returns (r: Maybe<seq<Value>>)
    requires |arr1| <= MAX_ARRAY_SIZE && |arr2| <= MAX_ARRAY_SIZE
    ensures r.None? <==> |arr1 + Select(arr2, arr1, false)| > MAX_ARRAY_SIZE
    ensures r.Some? ==> r.value == arr1 + Select(arr2, arr1, false)
  {
    hide Table, Capacity, FSize, PowerOfTwo, Flagged, Select;
    if |arr1| == 0 || |arr2| == 0 {
      SelectNone(arr2, arr1);
      return Some(if |arr1| == 0 then arr2 else arr1);
    }
    var m := Filled(arr1, seq(|arr1|, _ => Number(1)), |arr1|, hash);
    assert forall k :: k in m.contents <==> k in arr1 by { assert arr1[..|arr1|] == arr1; }
    var flags, size := Flag(arr2, m, false);
    FlaggedIsSelect(arr2, flags[..], arr1, false);
    if |arr1| + size > MAX_ARRAY_SIZE { return None; }
    var all := Append(arr1, arr2, flags, size);
    r := Some(all);
  }

  method Append(arr1: seq<Value>, arr2: seq<Value>, flags: array<bool>, size: nat) returns (r: seq<Value>)
    requires flags.Length == |arr2| && size == |Flagged(arr2, flags[..])|
    ensures r == arr1 + Flagged(arr2, flags[..])
  {
    hide Flagged;
    var arr3 := new Value[|arr1| + size];
    var i := 0;
    while i < |arr1|
      modifies arr3
      invariant i <= |arr1| && arr3[..i] == arr1[..i]
    {
      arr3[i] := arr1[i];
      i := i + 1;
    }
    Collect(arr2, flags, arr3, |arr1|);
    r := arr3[..];
  }
}
