/** Partial application and the stack shuffle of calls (src/interpret.c). */
module Closures {

  /** An argument of a closure or on the stack: a hole to be filled later, or a value, which
      is only ever moved and so may be any number. */
  datatype Arg = Hole | Val(value: int)

  /** The stored arguments with holes filled left to right, the surplus appended. */
  function Fill(stored: seq<Arg>, given: seq<Arg>): seq<Arg> {
    if stored == [] then given
    else if stored[0].Hole? && given != [] then [given[0]] + Fill(stored[1..], given[1..])
    else [stored[0]] + Fill(stored[1..], given)
  }

  function Holes(s: seq<Arg>): (n: nat)
    ensures n <= |s|
  {
    if s == [] then 0 else (if s[0].Hole? then 1 else 0) + Holes(s[1..])
  }

  lemma {:induction false} FillSize(stored: seq<Arg>, given: seq<Arg>)
    ensures |Fill(stored, given)| == |stored| + if Holes(stored) < |given| then |given| - Holes(stored) else 0
  {
    if stored != [] { FillSize(stored[1..], if stored[0].Hole? && given != [] then given[1..] else given); }
  }

  /** Filling in two steps is filling in one, if what is given first has no holes. */
  /** The k-th hole takes the k-th argument, if there are so many, everything else stays where
      it is, and the arguments left over come behind in their order. */
  lemma {:induction false} FillAt(stored: seq<Arg>, given: seq<Arg>, i: nat)
    requires i < |Fill(stored, given)|
    ensures Fill(stored, given)[i] ==
              if i >= |stored| then
                (if Holes(stored) + i - |stored| < |given| then given[Holes(stored) + i - |stored|] else Hole)
              else if stored[i].Hole? && Holes(stored[..i]) < |given| then given[Holes(stored[..i])]
              else stored[i]
  {
    FillSize(stored, given);
    if stored != [] && i > 0 {
      var given' := if stored[0].Hole? && given != [] then given[1..] else given;
      FillAt(stored[1..], given', i - 1);
      if i < |stored| { assert stored[1..][..i - 1] == stored[..i][1..]; }
    }
  }

  lemma {:induction false} FillTwice(stored: seq<Arg>, a: seq<Arg>, b: seq<Arg>)
    requires Holes(a) == 0
    ensures Fill(Fill(stored, a), b) == Fill(stored, a + b)
  {
    if stored == [] {
      FillPlain(a, b);
    } else if stored[0].Hole? && a != [] {
      assert (a + b)[1..] == a[1..] + b;
      FillTwice(stored[1..], a[1..], b);
      var f := Fill(stored, a);
      assert f[1..] == Fill(stored[1..], a[1..]) && f[0] == a[0];
    } else {
      var f := Fill(stored, a);
      assert f[1..] == Fill(stored[1..], a) && f[0] == stored[0];
      if stored[0].Hole? {
        assert a + b == b;
        if b != [] {
          FillTwice(stored[1..], a, b[1..]);
          assert a + b[1..] == b[1..];
        } else {
          FillTwice(stored[1..], a, b);
        }
      } else {
        FillTwice(stored[1..], a, b);
      }
    }
  }

  lemma {:induction false} FillPlain(a: seq<Arg>, b: seq<Arg>)
    requires Holes(a) == 0
    ensures Fill(a, b) == a + b
  {
    if a != [] {
      FillPlain(a[1..], b);
      assert a + b == [a[0]] + (a[1..] + b);
    } else {
      assert a + b == b;
    }
  }

  /** Two steps are one, whatever is given in the second, exactly if the first has no holes. */
  lemma FillTwiceExactly(stored: seq<Arg>, a: seq<Arg>)
    ensures Holes(a) == 0 <==> forall b :: Fill(Fill(stored, a), b) == Fill(stored, a + b)
  {
    if Holes(a) == 0 {
      forall b ensures Fill(Fill(stored, a), b) == Fill(stored, a + b) { FillTwice(stored, a, b); }
    } else {
      HoleDiffers(stored, a, [Val(0)]);
    }
  }

  /** With a hole among them, an argument given later goes into it, and not behind it. */
  lemma {:induction false} HoleDiffers(stored: seq<Arg>, a: seq<Arg>, b: seq<Arg>)
    requires Holes(a) > 0 && |b| == 1 && b[0].Val?
    ensures Fill(Fill(stored, a), b) != Fill(stored, a + b)
  {
    var f, g := Fill(stored, a), Fill(stored, a + b);
    if stored == [] {
      HoleFilled(a, b);
    } else if stored[0].Hole? {
      assert (a + b)[1..] == a[1..] + b && (a + b)[0] == a[0];
      assert f[0] == a[0] && f[1..] == Fill(stored[1..], a[1..]);
      assert g[0] == a[0] && g[1..] == Fill(stored[1..], a[1..] + b);
      if a[0].Hole? {
        assert Fill(f, b)[0] == b[0];
      } else {
        HoleDiffers(stored[1..], a[1..], b);
        assert Fill(f, b)[1..] == Fill(f[1..], b);
      }
    } else {
      HoleDiffers(stored[1..], a, b);
      assert f[1..] == Fill(stored[1..], a) && g[1..] == Fill(stored[1..], a + b);
      assert Fill(f, b)[1..] == Fill(f[1..], b);
    }
  }

  lemma {:induction false} HoleFilled(a: seq<Arg>, b: seq<Arg>)
    requires Holes(a) > 0 && |b| == 1
    ensures |Fill(a, b)| < |a + b|
  {
    FillSize(a, b);
  }

  /** How many of the given arguments a prefix of the stored ones takes. */
  function Used(s: seq<Arg>, given: seq<Arg>): (n: nat)
    ensures n <= |given| && n <= Holes(s) && (n == |given| || n == Holes(s))
  {
    if Holes(s) < |given| then Holes(s) else |given|
  }

  lemma {:induction false} HolesSnoc(s: seq<Arg>, x: Arg)
    ensures Holes(s + [x]) == Holes(s) + if x.Hole? then 1 else 0
  {
    if s == [] {
      assert s + [x] == [x];
    } else {
      assert (s + [x])[1..] == s[1..] + [x];
      HolesSnoc(s[1..], x);
    }
  }

  /** One more stored argument that is taken as it is ... */
  lemma {:induction false} FillKeep(s: seq<Arg>, x: Arg, g: seq<Arg>)
    requires |g| <= Holes(s)
    ensures Fill(s + [x], g) == Fill(s, g) + [x]
  {
    var u := s + [x];
    if s == [] {
      assert u == [x] && g == [];
    } else {
      assert u[1..] == s[1..] + [x] && u[0] == s[0];
      FillKeep(s[1..], x, if s[0].Hole? && g != [] then g[1..] else g);
    }
  }

  /** ... and one that is a hole and filled with the next one given. */
  lemma {:induction false} FillTake(s: seq<Arg>, x: Arg, g: seq<Arg>, y: Arg)
    requires |g| == Holes(s) && x.Hole?
    ensures Fill(s + [x], g + [y]) == Fill(s, g) + [y]
  {
    var u, h := s + [x], g + [y];
    if s == [] {
      assert u == [x] && h == [y];
    } else {
      assert u[1..] == s[1..] + [x] && u[0] == s[0];
      if s[0].Hole? {
        assert h[1..] == g[1..] + [y] && h[0] == g[0];
        FillTake(s[1..], x, g[1..], y);
      } else {
        FillTake(s[1..], x, g, y);
      }
    }
  }

  /** One more stored argument. */
  lemma FillSnoc(s: seq<Arg>, x: Arg, given: seq<Arg>)
    ensures var j := Used(s, given); var fill := x.Hole? && j < |given|;
            && Used(s + [x], given) == (if fill then j + 1 else j)
            && Fill(s + [x], given[..if fill then j + 1 else j]) == Fill(s, given[..j]) + [if fill then given[j] else x]
    ensures Holes(s + [x]) == Holes(s) + if x.Hole? then 1 else 0
  {
    hide Fill, Holes;
    var j := Used(s, given);
    HolesSnoc(s, x);
    if x.Hole? && j < |given| {
      assert given[..j + 1] == given[..j] + [given[j]];
      FillTake(s, x, given[..j], given[j]);
    } else {
      FillKeep(s, x, given[..j]);
    }
  }

  lemma {:induction false} FillSurplus(s: seq<Arg>, given: seq<Arg>)
    ensures Fill(s, given) == Fill(s, given[..Used(s, given)]) + given[Used(s, given)..]
  {
    var j := Used(s, given);
    if s == [] {
      assert given == given[..j] + given[j..];
    } else if s[0].Hole? && given != [] {
      FillSurplus(s[1..], given[1..]);
      assert given[..j][1..] == given[1..][..j - 1] && given[j..] == given[1..][j - 1..];
    } else {
      FillSurplus(s[1..], given);
    }
  }

  const MAX_ARRAY_SIZE: nat := 5000

  datatype Maybe<T> = None | Some(value: T)

  /** papply: the arguments of the new closure; too many of them are an error. */
  method Papply(stored: seq<Arg>, args: seq<Arg>) returns (items: Maybe<seq<Arg>>)
    ensures items.None? <==> |Fill(stored, args)| > MAX_ARRAY_SIZE
    ensures items.Some? ==> items.value == Fill(stored, args)
  {
    hide Fill, Holes;
    var j := CountHoles(stored);
    FillSize(stored, args);
    var newsize := |stored| + if j < |args| then |args| - j else 0;
    if newsize > MAX_ARRAY_SIZE { return None; }
    var a := new Arg[newsize](_ => Hole);
    j := FillSlots(a, stored, args);
    FillSurplus(stored, args);
    CopyRest(a, |stored|, args, j);
    items := Some(a[..]);
  }

  method FillSlots(a: array<Arg>, stored: seq<Arg>, args: seq<Arg>) returns (j: nat)
    requires |stored| <= a.Length
    modifies a
    ensures j == Used(stored, args) && a[..|stored|] == Fill(stored, args[..j])
  {
    hide Fill, Holes;
    var i := 0;
    j := 0;
    FillStart(args);
    while i < |stored|
      modifies a
      invariant i <= |stored| && j == Used(stored[..i], args) && a[..i] == Fill(stored[..i], args[..j])
    {
      FillSnoc(stored[..i], stored[i], args);
      assert stored[..i + 1] == stored[..i] + [stored[i]];
      if stored[i].Hole? && j < |args| {
        a[i] := args[j];
        j := j + 1;
      } else {
        a[i] := stored[i];
      }
      i := i + 1;
    }
    assert stored[..i] == stored;
  }

  method CopyRest(a: array<Arg>, from: nat, args: seq<Arg>, k: nat)
    requires k <= |args| && a.Length == from + |args| - k
    modifies a
    ensures a[..] == old(a[..from]) + args[k..]
  {
    var i, j := from, k;
    while j < |args|
      modifies a
      invariant k <= j <= |args| && i == from + (j - k) && a[..i] == old(a[..from]) + args[k..j]
    {
      a[i] := args[j];
      i, j := i + 1, j + 1;
      assert args[k..j] == args[k..j - 1] + [args[j - 1]];
    }
  }

  function Slice(s: seq<Arg>, i: nat, j: nat): seq<Arg> { if i <= j <= |s| then s[i..j] else [] }

  /** The stack shuffle of call_var: below base the stack is as it was, and from there on are
      the stored arguments with their holes filled.  With too few arguments it is an error. */
  method CallVar(stack: array<Arg>, top: nat, num: nat, stored: seq<Arg>) returns (ok: bool, top': nat)
    requires num <= top && top + |stored| <= stack.Length
    modifies stack
    ensures ok <==> Holes(stored) <= num
    ensures !ok ==> stack[..] == old(stack[..])
    ensures ok ==> top' == top - num + |Fill(stored, old(stack[top - num..top]))| <= stack.Length
    ensures ok ==>
              && stack[..top - num] == old(stack[..top - num])
              && stack[top - num..top'] == Fill(stored, old(stack[top - num..top]))
  {
    hide Fill, Holes;
    ghost var args := stack[top - num..top];
    FillSize(stored, args);
    if |stored| == 0 {
      NoneStored(args);
      assert stored == [];
      return true, top;
    }
    var empty := CountHoles(stored);
    if empty > num { return false, top; }
    assert args == Slice(stack[..], top - num, top);
    Shuffle(stack, top, num, stored, empty);
    return true, top + |stored| - empty;
  }

  method Shuffle(stack: array<Arg>, top: nat, num: nat, stored: seq<Arg>, empty: nat)
    requires num <= top && top + |stored| <= stack.Length && empty == Holes(stored) <= num
    modifies stack
    ensures Slice(stack[..], 0, top - num) == Slice(old(stack[..]), 0, top - num)
    ensures Slice(stack[..], top - num, top + |stored| - empty) == Fill(stored, Slice(old(stack[..]), top - num, top))
  {
    hide Fill, Holes, Slice, Used;
    var base, mid := top - num, top - num + |stored|;
    ghost var args := Slice(stack[..], base, top);
    MoveUp(stack, top, num, |stored|);
    SliceSize(stack[..], mid, mid + num);
    PushStored(stack, base, num, stored, args);
    ghost var s2 := stack[..];
    MoveDown(stack, mid, empty, num - empty);
    FillAll(stored, args);
    Parts(s2, stack[..], base, mid, mid + num - empty);
  }

  lemma SliceSize(s: seq<Arg>, i: nat, j: nat)
    requires i <= j <= |s|
    ensures |Slice(s, i, j)| == j - i
  {
  }

  lemma FillAll(s: seq<Arg>, given: seq<Arg>)
    requires Holes(s) <= |given|
    ensures Fill(s, given) == Fill(s, given[..Holes(s)]) + given[Holes(s)..]
  {
    FillSurplus(s, given);
  }

  lemma Parts(s: seq<Arg>, t: seq<Arg>, i: nat, j: nat, k: nat)
    requires i <= j <= k && j <= |s| && k <= |t| && Slice(s, 0, j) == Slice(t, 0, j)
    ensures Slice(t, 0, i) == Slice(s, 0, i) && Slice(t, i, k) == Slice(s, i, j) + Slice(t, j, k)
  {
    assert t[..i] == t[0..j][..i] && s[..i] == s[0..j][..i];
    assert s[i..j] == s[0..j][i..] && t[i..j] == t[0..j][i..];
  }

  lemma NoneStored(args: seq<Arg>)
    ensures Fill([], args) == args && Holes([]) == 0
  {
  }

  /** The arguments move up by n, the topmost first. */
  method MoveUp(stack: array<Arg>, top: nat, num: nat, n: nat)
    requires num <= top && top + n <= stack.Length
    modifies stack
    ensures Slice(stack[..], 0, top - num) == Slice(old(stack[..]), 0, top - num)
    ensures Slice(stack[..], top - num + n, top + n) == Slice(old(stack[..]), top - num, top)
  {
    hide Slice;
    var i := 0;
    ghost var was := stack[..];
    SlicesEmpty(was, top, n);
    while i < num
      modifies stack
      invariant i <= num
      invariant Slice(stack[..], 0, top - i) == Slice(was, 0, top - i)
      invariant Slice(stack[..], top - i + n, top + n) == Slice(was, top - i, top)
    {
      UpStep(stack[..], was, top - i, top, n);
      ghost var now := stack[..];
      stack[top - 1 - i + n] := stack[top - 1 - i];
      assert stack[..] == now[top - 1 - i + n := now[top - 1 - i]];
      i := i + 1;
    }
  }

  lemma SlicesEmpty(s: seq<Arg>, i: nat, n: nat)
    requires i + n <= |s|
    ensures Slice(s, i, i) == [] && Slice(s, i + n, i + n) == []
  {
  }

  lemma UpStep(s: seq<Arg>, was: seq<Arg>, t: nat, top: nat, n: nat)
    requires 0 < t <= top && top + n <= |s| == |was|
    requires Slice(s, 0, t) == Slice(was, 0, t) && Slice(s, t + n, top + n) == Slice(was, t, top)
    ensures var s' := s[t - 1 + n := s[t - 1]];
            Slice(s', 0, t - 1) == Slice(was, 0, t - 1) && Slice(s', t - 1 + n, top + n) == Slice(was, t - 1, top)
  {
    var s' := s[t - 1 + n := s[t - 1]];
    assert s[t - 1] == s[0..t][t - 1] == was[0..t][t - 1];
    assert s'[..t - 1] == s[0..t][..t - 1] && was[..t - 1] == was[0..t][..t - 1];
    assert s'[t - 1 + n..top + n] == [s[t - 1]] + s[t + n..top + n];
    assert was[t - 1..top] == [was[t - 1]] + was[t..top];
  }

  /** The stored arguments are pushed, the holes filled from the arguments above. */
  method PushStored(stack: array<Arg>, base: nat, num: nat, stored: seq<Arg>, ghost args: seq<Arg>)
    requires base + |stored| + num <= stack.Length && |args| == num && Holes(stored) <= num
    requires Slice(stack[..], base + |stored|, base + |stored| + num) == args
    modifies stack
    ensures Slice(stack[..], 0, base) == Slice(old(stack[..]), 0, base)
    ensures Slice(stack[..], base, base + |stored|) == Fill(stored, args[..Holes(stored)])
    ensures Slice(stack[..], base + |stored| + Holes(stored), base + |stored| + num) == args[Holes(stored)..]
  {
    hide Fill, Holes, Used, Slice;
    var i, j := 0, 0;
    ghost var was, mid := stack[..], base + |stored|;
    FillStart(args);
    SlicesEmpty(was, base, 0);
    while i < |stored|
      modifies stack
      invariant i <= |stored| && j == Used(stored[..i], args) && Slice(stack[..], 0, base) == Slice(was, 0, base)
      invariant Slice(stack[..], base, base + i) == Fill(stored[..i], args[..j])
      invariant Slice(stack[..], mid + j, mid + num) == args[j..]
    {
      FillSnoc(stored[..i], stored[i], args);
      assert stored[..i + 1] == stored[..i] + [stored[i]];
      HolesPrefix(stored, i + 1);
      ghost var now := stack[..];
      if stored[i].Hole? {
        NextArg(now, mid, j, num, args);
        stack[base + i] := stack[base + |stored| + j];
        PushStep(now, base, i, mid, j + 1, num, args[j]);
        j := j + 1;
      } else {
        stack[base + i] := stored[i];
        PushStep(now, base, i, mid, j, num, stored[i]);
      }
      assert stack[..] == now[base + i := stack[base + i]];
      i := i + 1;
    }
    assert stored[..i] == stored;
  }

  lemma NextArg(s: seq<Arg>, mid: nat, j: nat, num: nat, args: seq<Arg>)
    requires j < num == |args| && mid + num <= |s| && Slice(s, mid + j, mid + num) == args[j..]
    ensures s[mid + j] == args[j] && Slice(s, mid + j + 1, mid + num) == args[j + 1..]
  {
    assert s[mid + j] == s[mid + j..mid + num][0] && s[mid + j + 1..mid + num] == s[mid + j..mid + num][1..];
  }

  lemma PushStep(s: seq<Arg>, base: nat, i: nat, mid: nat, j: nat, num: nat, x: Arg)
    requires base + i < mid && j <= num && mid + num <= |s|
    ensures var s' := s[base + i := x];
            && Slice(s', 0, base) == Slice(s, 0, base)
            && Slice(s', base, base + i + 1) == Slice(s, base, base + i) + [x]
            && Slice(s', mid + j, mid + num) == Slice(s, mid + j, mid + num)
  {
    var s' := s[base + i := x];
    assert s'[base..base + i + 1] == s[base..base + i] + [x];
    assert s'[mid + j..mid + num] == s[mid + j..mid + num];
  }

  lemma {:induction false} HolesPrefix(s: seq<Arg>, i: nat)
    requires i <= |s|
    ensures Holes(s[..i]) <= Holes(s)
    decreases |s| - i
  {
    if i < |s| {
      HolesPrefix(s, i + 1);
      FillSnoc(s[..i], s[i], []);
      assert s[..i + 1] == s[..i] + [s[i]];
    } else {
      assert s[..i] == s;
    }
  }

  method MoveDown(stack: array<Arg>, at: nat, gap: nat, n: nat)
    requires at + gap + n <= stack.Length
    modifies stack
    ensures Slice(stack[..], 0, at) == Slice(old(stack[..]), 0, at)
    ensures Slice(stack[..], at, at + n) == Slice(old(stack[..]), at + gap, at + gap + n)
  {
    hide Slice;
    var i := 0;
    ghost var was := stack[..];
    SlicesEmpty(was, at, gap);
    while i < n
      modifies stack
      invariant i <= n && Slice(stack[..], 0, at) == Slice(was, 0, at)
      invariant Slice(stack[..], at, at + i) == Slice(was, at + gap, at + gap + i)
      invariant Slice(stack[..], at + gap + i, at + gap + n) == Slice(was, at + gap + i, at + gap + n)
    {
      DownStep(stack[..], was, at, gap, i, n);
      ghost var now := stack[..];
      stack[at + i] := stack[at + gap + i];
      assert stack[..] == now[at + i := now[at + gap + i]];
      i := i + 1;
    }
  }

  lemma DownStep(s: seq<Arg>, was: seq<Arg>, at: nat, gap: nat, i: nat, n: nat)
    requires i < n && at + gap + n <= |s| == |was|
    requires Slice(s, 0, at) == Slice(was, 0, at) && Slice(s, at, at + i) == Slice(was, at + gap, at + gap + i)
    requires Slice(s, at + gap + i, at + gap + n) == Slice(was, at + gap + i, at + gap + n)
    ensures var s' := s[at + i := s[at + gap + i]];
            && Slice(s', 0, at) == Slice(was, 0, at)
            && Slice(s', at, at + i + 1) == Slice(was, at + gap, at + gap + i + 1)
            && Slice(s', at + gap + i + 1, at + gap + n) == Slice(was, at + gap + i + 1, at + gap + n)
  {
    var s' := s[at + i := s[at + gap + i]];
    var from, end := at + gap + i, at + gap + n;
    assert s[from] == s[from..end][0] == was[from..end][0];
    assert s'[0..at] == s[0..at];
    assert s'[at..at + i + 1] == s[at..at + i] + [s[from]]
        && was[at + gap..from + 1] == was[at + gap..from] + [was[from]];
    assert s'[from + 1..end] == s[from..end][1..] && was[from + 1..end] == was[from..end][1..];
  }

  lemma FillStart(args: seq<Arg>)
    ensures Used([], args) == 0 && Fill([], args[..0]) == []
  {
  }

  method CountHoles(s: seq<Arg>) returns (n: nat)
    ensures n == Holes(s)
  {
    n := 0;
    var i := 0;
    while i < |s|
      invariant i <= |s| && n == Holes(s[..i])
    {
      FillSnoc(s[..i], s[i], []);
      assert s[..i + 1] == s[..i] + [s[i]];
      if s[i].Hole? { n := n + 1; }
      i := i + 1;
    }
    assert s[..i] == s;
  }
}
