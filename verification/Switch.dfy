/** The switch instruction (src/interpret.c): a binary search over a table in which a case
    label is one entry and a case range is two, the first of them marked. */
module Switch {

  const RANGE: nat := 0xFFFF

  /** What is switched on. */
  datatype Operand = Number(n: int) | Text(s: string) | Other

  datatype Maybe<T> = None | Some(value: T)

  datatype Entry<L> = Entry(key: L, offset: nat)

  /** A marked entry is followed by the one that completes it. */
  ghost predicate Paired<L>(t: seq<Entry<L>>) {
    forall i | 0 <= i < |t| && t[i].offset == RANGE :: i + 1 < |t| && t[i + 1].offset != RANGE
  }

  /** A label or range, not the second half of one, starts at i. */
  predicate Whole<L>(t: seq<Entry<L>>, start: nat, i: int) {
    start <= i <= |t| && (i > start ==> t[i - 1].offset != RANGE)
  }

  /** What is compared at entry i, the search value with the label. */
  function At<L>(t: seq<Entry<L>>, cmp: L -> int, i: int): int
    requires 0 <= i < |t|
  {
    cmp(t[i].key)
  }

  /** Behind an entry that is not below the search value only entries above it follow,
      but for the end of the same range. */
  ghost predicate Ordered<L>(t: seq<Entry<L>>, cmp: L -> int, start: nat) {
    forall i, j | start <= i < j < |t| && At(t, cmp, i) <= 0 ::
      At(t, cmp, j) < 0 || (At(t, cmp, i) == 0 && At(t, cmp, j) == 0 && j == i + 1 && t[i].offset == RANGE)
  }

  /** The label or range that starts at i holds the search value. */
  predicate Match<L>(t: seq<Entry<L>>, cmp: L -> int, i: int)
    requires 0 <= i < |t|
  {
    if t[i].offset == RANGE then At(t, cmp, i) >= 0 && i + 1 < |t| && At(t, cmp, i + 1) <= 0
    else At(t, cmp, i) == 0
  }

  /** The scan of all entries from i on. */
  function Scan<L>(t: seq<Entry<L>>, cmp: L -> int, i: nat, dflt: nat): nat
    decreases |t| - i
  {
    if i >= |t| then dflt
    else if t[i].offset == RANGE then
      if i + 1 < |t| && Match(t, cmp, i) then t[i + 1].offset else Scan(t, cmp, i + 2, dflt)
    else if Match(t, cmp, i) then t[i].offset else Scan(t, cmp, i + 1, dflt)
  }

  lemma {:induction false} ScanNone<L>(t: seq<Entry<L>>, cmp: L -> int, start: nat, i: nat, dflt: nat)
    requires Paired(t) && Whole(t, start, i) && forall k | i <= k < |t| && Whole(t, start, k) :: !Match(t, cmp, k)
    ensures Scan(t, cmp, i, dflt) == dflt
    decreases |t| - i
  {
    if i < |t| {
      assert !Match(t, cmp, i);
      ScanNone(t, cmp, start, if t[i].offset == RANGE then i + 2 else i + 1, dflt);
    }
  }

  lemma Later<L>(t: seq<Entry<L>>, cmp: L -> int, start: nat, i: nat, j: nat)
    requires Ordered(t, cmp, start) && start <= i < j < |t|
    ensures At(t, cmp, i) <= 0 ==> At(t, cmp, j) <= 0
    ensures At(t, cmp, i) <= 0 && (At(t, cmp, i) < 0 || t[i].offset != RANGE || j > i + 1) ==> At(t, cmp, j) < 0
  {
  }

  lemma {:induction false} ScanHit<L>(t: seq<Entry<L>>, cmp: L -> int, start: nat, i: nat, m: nat, dflt: nat)
    requires Paired(t) && Ordered(t, cmp, start) && Whole(t, start, i) && Whole(t, start, m) && i <= m < |t|
               && Match(t, cmp, m)
    ensures Scan(t, cmp, i, dflt) == if t[m].offset == RANGE then t[m + 1].offset else t[m].offset
    decreases m - i
  {
    if i < m {
      if t[i].offset == RANGE {
        Later(t, cmp, start, i + 1, m);
        ScanHit(t, cmp, start, i + 2, m, dflt);
      } else {
        Later(t, cmp, start, i, m);
        ScanHit(t, cmp, start, i + 1, m, dflt);
      }
    }
  }

  /** No match below head or above tail. */
  ghost predicate Narrowed<L>(t: seq<Entry<L>>, cmp: L -> int, start: nat, head: int, tail: int) {
    && Whole(t, start, head) && Whole(t, start, tail + 1) && head <= tail + 1
    && (forall k | start <= k < head && Whole(t, start, k) :: !Match(t, cmp, k))
    && (forall k | tail < k < |t| && Whole(t, start, k) && start <= k :: !Match(t, cmp, k))
  }

  lemma GoLeft<L>(t: seq<Entry<L>>, cmp: L -> int, start: nat, head: int, tail: int, m: int)
    requires Paired(t) && Ordered(t, cmp, start) && Narrowed(t, cmp, start, head, tail)
    requires head <= m <= tail && Whole(t, start, m) && At(t, cmp, m) < 0
    ensures Narrowed(t, cmp, start, head, m - 1)
  {
    forall k | m - 1 < k < |t| && Whole(t, start, k) && start <= k ensures !Match(t, cmp, k) {
      if k > m { Later(t, cmp, start, m, k); }
    }
  }

  /** Entry n is below the search value and ends a label or range. */
  lemma GoRight<L>(t: seq<Entry<L>>, cmp: L -> int, start: nat, head: int, tail: int, n: int)
    requires Paired(t) && Ordered(t, cmp, start) && Narrowed(t, cmp, start, head, tail)
    requires head <= n <= tail && t[n].offset != RANGE && At(t, cmp, n) > 0
    ensures Narrowed(t, cmp, start, n + 1, tail)
  {
    forall k | start <= k < n + 1 && Whole(t, start, k) ensures !Match(t, cmp, k) {
      if k < n { Later(t, cmp, start, k, n); }
      if k + 1 < n { Later(t, cmp, start, k + 1, n); }
    }
  }

  /** The label or range the search looks at next. */
  function Middle<L>(t: seq<Entry<L>>, head: nat, tail: int): (mid: nat)
    requires head <= tail < |t|
    ensures head <= mid <= tail
  {
    var mid := (head + tail) / 2;
    if t[mid].offset != RANGE && mid != head && t[mid - 1].offset == RANGE then mid - 1 else mid
  }

  /** The search of f_switch, on the window from head to tail. */
  function Bin<L>(t: seq<Entry<L>>, cmp: L -> int, head: nat, tail: int, dflt: nat): nat
    requires tail < |t|
    decreases tail + 1 - head
  {
    if head > tail then dflt
    else
      var mid := Middle(t, head, tail);
      if t[mid].offset == RANGE && mid + 1 < |t| then
        if At(t, cmp, mid) < 0 then Bin(t, cmp, head, mid - 1, dflt)
        else if At(t, cmp, mid + 1) > 0 then Bin(t, cmp, mid + 2, tail, dflt)
        else t[mid + 1].offset
      else if At(t, cmp, mid) == 0 then t[mid].offset
      else if At(t, cmp, mid) < 0 then Bin(t, cmp, head, mid - 1, dflt)
      else Bin(t, cmp, mid + 1, tail, dflt)
  }

  method Search<L>(t: seq<Entry<L>>, cmp: L -> int, start: nat, dflt: nat) returns (target: nat)
    requires Paired(t) && start <= |t|
    ensures target == Bin(t, cmp, start, |t| - 1, dflt)
    ensures Ordered(t, cmp, start) ==> target == Scan(t, cmp, start, dflt)
  {
    hide Ordered, Scan, Bin;
    if Ordered(t, cmp, start) {
      WholeTable(t, cmp, start);
      BinIsScan(t, cmp, start, start, |t| - 1, dflt);
    }
    var head: int, tail := start, |t| - 1;
    while head <= tail
      invariant 0 <= head && tail < |t| && Bin(t, cmp, start, |t| - 1, dflt) == Bin(t, cmp, head, tail, dflt)
      decreases tail + 1 - head
    {
      BinStep(t, cmp, head, tail, dflt);
      var mid := (head + tail) / 2;
      var range := t[mid].offset == RANGE;
      if !range && mid != head && t[mid - 1].offset == RANGE { mid, range := mid - 1, true; }
      if range {
        if cmp(t[mid].key) < 0 {
          tail := mid - 1;
        } else if cmp(t[mid + 1].key) > 0 {
          head := mid + 2;
        } else {
          return t[mid + 1].offset;
        }
      } else if cmp(t[mid].key) == 0 {
        return t[mid].offset;
      } else if cmp(t[mid].key) < 0 {
        tail := mid - 1;
      } else {
        head := mid + 1;
      }
    }
    BinEnd(t, cmp, head, tail, dflt);
    target := dflt;
  }

  lemma BinEnd<L>(t: seq<Entry<L>>, cmp: L -> int, head: nat, tail: int, dflt: nat)
    requires tail < |t| && head > tail
    ensures Bin(t, cmp, head, tail, dflt) == dflt
  {
  }

  lemma BinStep<L>(t: seq<Entry<L>>, cmp: L -> int, head: nat, tail: int, dflt: nat)
    requires head <= tail < |t| && Paired(t)
    ensures var mid: int := Middle(t, head, tail);
            Bin(t, cmp, head, tail, dflt)
            == if t[mid].offset == RANGE then
                 if cmp(t[mid].key) < 0 then Bin(t, cmp, head, mid - 1, dflt)
                 else if cmp(t[mid + 1].key) > 0 then Bin(t, cmp, mid + 2, tail, dflt)
                 else t[mid + 1].offset
               else if cmp(t[mid].key) == 0 then t[mid].offset
               else if cmp(t[mid].key) < 0 then Bin(t, cmp, head, mid - 1, dflt)
               else Bin(t, cmp, mid + 1, tail, dflt)
  {
  }

  /** On an ordered table the search is the scan: its window always starts and ends on
      whole labels and ranges. */
  lemma {:induction false} BinIsScan<L>(t: seq<Entry<L>>, cmp: L -> int, start: nat, head: nat, tail: int, dflt: nat)
    requires Paired(t) && Ordered(t, cmp, start) && Narrowed(t, cmp, start, head, tail) && tail < |t|
    ensures Bin(t, cmp, head, tail, dflt) == Scan(t, cmp, start, dflt)
    decreases tail + 1 - head
  {
    hide Ordered, Narrowed, Scan, Bin, Middle, Whole;
    if head > tail {
      NoneLeft(t, cmp, start, head, tail, dflt);
      BinEnd(t, cmp, head, tail, dflt);
    } else {
      var mid: int := Middle(t, head, tail);
      BinStep(t, cmp, head, tail, dflt);
      MiddleWhole(t, cmp, start, head, tail);
      if t[mid].offset == RANGE {
        if At(t, cmp, mid) < 0 {
          GoLeft(t, cmp, start, head, tail, mid);
          BinIsScan(t, cmp, start, head, mid - 1, dflt);
        } else if At(t, cmp, mid + 1) > 0 {
          GoRight(t, cmp, start, head, tail, mid + 1);
          BinIsScan(t, cmp, start, mid + 2, tail, dflt);
        } else {
          ScanHit(t, cmp, start, start, mid, dflt);
        }
      } else if At(t, cmp, mid) == 0 {
        ScanHit(t, cmp, start, start, mid, dflt);
      } else if At(t, cmp, mid) < 0 {
        GoLeft(t, cmp, start, head, tail, mid);
        BinIsScan(t, cmp, start, head, mid - 1, dflt);
      } else {
        GoRight(t, cmp, start, head, tail, mid);
        BinIsScan(t, cmp, start, mid + 1, tail, dflt);
      }
    }
  }

  /** The search looks at whole labels and ranges within its window. */
  lemma MiddleWhole<L>(t: seq<Entry<L>>, cmp: L -> int, start: nat, head: nat, tail: int)
    requires Paired(t) && Narrowed(t, cmp, start, head, tail) && head <= tail < |t|
    ensures var mid := Middle(t, head, tail);
            && start <= mid && Whole(t, start, mid) && Whole(t, start, start)
            && (t[mid].offset == RANGE ==> mid + 1 <= tail && t[mid + 1].offset != RANGE)
  {
    Edges(t, cmp, start, head, tail);
  }

  lemma WholeTable<L>(t: seq<Entry<L>>, cmp: L -> int, start: nat)
    requires Paired(t) && start <= |t|
    ensures Narrowed(t, cmp, start, start, |t| - 1)
  {
  }

  lemma Edges<L>(t: seq<Entry<L>>, cmp: L -> int, start: nat, head: int, tail: int)
    requires Narrowed(t, cmp, start, head, tail)
    ensures Whole(t, start, head) && Whole(t, start, tail + 1)
  {
  }

  lemma NoneLeft<L>(t: seq<Entry<L>>, cmp: L -> int, start: nat, head: int, tail: int, dflt: nat)
    requires Paired(t) && Narrowed(t, cmp, start, head, tail) && head > tail
    ensures Scan(t, cmp, start, dflt) == dflt
  {
    ScanNone(t, cmp, start, start, dflt);
  }

  // ---- numbers ----------------------------------------------------------------------------

  /** The difference, truncated to 32 bits with sign. */
  function Int32(x: int): int {
    var u := x % 0x1_0000_0000;
    if u < 0x8000_0000 then u else u - 0x1_0000_0000
  }

  function CmpNumber(v: int): int -> int { key => Int32(v - key) }

  /** Labels rise from entry to entry; the ends of a range may be equal. */
  ghost predicate Rising(t: seq<Entry<int>>) {
    forall i, j | 0 <= i < j < |t| ::
        t[i].key < t[j].key || (j == i + 1 && t[i].offset == RANGE && t[i].key == t[j].key)
  }

  /** Numbers and labels are integers of 32 bits. */
  predicate IsInt(x: int) { -0x8000_0000 <= x < 0x8000_0000 }

  ghost predicate Ints(t: seq<Entry<int>>) {
    forall i | 0 <= i < |t| :: IsInt(t[i].key)
  }

  /** The label of entry i is within 2^31 of the value, so that their difference is exact. */
  predicate Near(t: seq<Entry<int>>, v: int, i: nat) {
    i < |t| && IsInt(v - t[i].key)
  }

  /** What truncation makes of the difference of two integers of 32 bits. */
  lemma Truncated(t: seq<Entry<int>>, v: int, i: nat)
    requires Ints(t) && IsInt(v) && i < |t|
    ensures var d, c := v - t[i].key, At(t, CmpNumber(v), i);
            && (Near(t, v, i) ==> c == d)
            && (!Near(t, v, i) ==> c == if d > 0 then d - 0x1_0000_0000 else d + 0x1_0000_0000)
            && (!Near(t, v, i) && d > 0 ==> c < 0)
            && (!Near(t, v, i) && d < 0 ==> c > 0)
  {
    var d := v - t[i].key;
    assert At(t, CmpNumber(v), i) == Int32(d);
    if d < 0 { assert d % 0x1_0000_0000 == d + 0x1_0000_0000; }
  }

  /** The label or range that starts at i holds v. */
  predicate Case(t: seq<Entry<int>>, v: int, i: nat) {
    && i < |t| && Whole(t, 0, i)
    && if t[i].offset == RANGE then i + 1 < |t| && t[i].key <= v <= t[i + 1].key else t[i].key == v
  }

  function Target(t: seq<Entry<int>>, i: nat): nat {
    if i < |t| && t[i].offset != RANGE then t[i].offset else if i + 1 < |t| then t[i + 1].offset else 0
  }

  lemma OnlyCase(t: seq<Entry<int>>, v: int, i: nat, k: nat)
    requires Paired(t) && Rising(t) && Case(t, v, i) && Case(t, v, k)
    ensures i == k
  {
    if i < k { CaseBefore(t, v, i, k); }
    if k < i { CaseBefore(t, v, k, i); }
  }

  lemma CaseBefore(t: seq<Entry<int>>, v: int, i: nat, k: nat)
    requires Paired(t) && Rising(t) && Case(t, v, i) && Case(t, v, k)
    ensures i >= k
  {
  }

  /** On the way the binary search takes down to entry i, which the shape of the table
      alone determines, the value is only compared with labels near to it. */
  predicate Way(t: seq<Entry<int>>, v: int, i: nat, head: nat, tail: int)
    requires tail < |t|
    decreases tail + 1 - head
  {
    head <= tail &&
      var mid: int := Middle(t, head, tail);
      && Near(t, v, mid)
      && (t[mid].offset == RANGE && mid <= i ==> Near(t, v, mid + 1))
      && (i < mid ==> Way(t, v, i, head, mid - 1))
      && (mid < i ==> Way(t, v, i, if t[mid].offset == RANGE then mid + 2 else mid + 1, tail))
  }

  /** The window starts and ends on whole labels and ranges. */
  predicate Window(t: seq<Entry<int>>, head: nat, tail: int) {
    Whole(t, 0, head) && Whole(t, 0, tail + 1)
  }

  /** Both halves of a window are windows. */
  lemma Halves(t: seq<Entry<int>>, head: nat, tail: int)
    requires Paired(t) && Window(t, head, tail) && head <= tail
    ensures var mid: int := Middle(t, head, tail);
            && Whole(t, 0, mid) && Window(t, head, mid - 1)
            && (t[mid].offset == RANGE ==> mid + 1 <= tail && t[mid + 1].offset != RANGE && Window(t, mid + 2, tail))
            && (t[mid].offset != RANGE ==> Window(t, mid + 1, tail))
  {
  }

  /** A value in no case of the window always gets the default. */
  lemma {:induction false} BinNoCase(t: seq<Entry<int>>, v: int, head: nat, tail: int, dflt: nat)
    requires Paired(t) && Rising(t) && Ints(t) && IsInt(v) && Window(t, head, tail) && tail < |t|
    requires forall k: nat | head <= k <= tail :: !Case(t, v, k)
    ensures Bin(t, CmpNumber(v), head, tail, dflt) == dflt
    decreases tail + 1 - head
  {
    hide Bin, Middle, Window, At, Ints;
    if head > tail {
      BinEnd(t, CmpNumber(v), head, tail, dflt);
    } else {
      BinStepAt(t, CmpNumber(v), head, tail, dflt);
      Halves(t, head, tail);
      var mid: int := Middle(t, head, tail);
      assert !Case(t, v, mid);
      Truncated(t, v, mid);
      BinNoCase(t, v, head, mid - 1, dflt);
      if t[mid].offset == RANGE {
        Truncated(t, v, mid + 1);
        BinNoCase(t, v, mid + 2, tail, dflt);
      } else {
        BinNoCase(t, v, mid + 1, tail, dflt);
      }
    }
  }

  /** A value in case i gets there if and only if it meets only near labels on the way. */
  lemma {:induction false} BinCase(t: seq<Entry<int>>, v: int, i: nat, head: nat, tail: int, dflt: nat)
    requires Paired(t) && Rising(t) && Ints(t) && IsInt(v) && Window(t, head, tail) && tail < |t|
    requires Case(t, v, i) && head <= i <= tail
    ensures Bin(t, CmpNumber(v), head, tail, dflt) == if Way(t, v, i, head, tail) then Target(t, i) else dflt
    decreases tail + 1 - head
  {
    hide Bin, Middle, Window, At, Ints, Way, Case;
    BinStepAt(t, CmpNumber(v), head, tail, dflt);
    Halves(t, head, tail);
    var mid: int := Middle(t, head, tail);
    WayStep(t, v, i, head, tail);
    Compared(t, v, i, mid);
    var next := if t[mid].offset == RANGE then mid + 2 else mid + 1;
    forall k: nat | head <= k <= tail && k != i ensures !Case(t, v, k) {
      if Case(t, v, k) { OnlyCase(t, v, i, k); }
    }
    if i < mid {
      BinCase(t, v, i, head, mid - 1, dflt);
      BinNoCase(t, v, next, tail, dflt);
    } else if i == mid {
      BinNoCase(t, v, head, mid - 1, dflt);
      BinNoCase(t, v, next, tail, dflt);
    } else {
      BinNoCase(t, v, head, mid - 1, dflt);
      BinCase(t, v, i, next, tail, dflt);
    }
  }

  lemma BinStepAt<L>(t: seq<Entry<L>>, cmp: L -> int, head: nat, tail: int, dflt: nat)
    requires head <= tail < |t| && Paired(t)
    ensures var mid: int := Middle(t, head, tail);
            Bin(t, cmp, head, tail, dflt)
            == if t[mid].offset == RANGE then
                 if At(t, cmp, mid) < 0 then Bin(t, cmp, head, mid - 1, dflt)
                 else if At(t, cmp, mid + 1) > 0 then Bin(t, cmp, mid + 2, tail, dflt)
                 else t[mid + 1].offset
               else if At(t, cmp, mid) == 0 then t[mid].offset
               else if At(t, cmp, mid) < 0 then Bin(t, cmp, head, mid - 1, dflt)
               else Bin(t, cmp, mid + 1, tail, dflt)
  {
  }

  lemma WayStep(t: seq<Entry<int>>, v: int, i: nat, head: nat, tail: int)
    requires head <= tail < |t|
    ensures var mid: int := Middle(t, head, tail);
            Way(t, v, i, head, tail)
            == (&& Near(t, v, mid)
                && (t[mid].offset == RANGE && mid <= i ==> Near(t, v, mid + 1))
                && (i < mid ==> Way(t, v, i, head, mid - 1))
                && (mid < i ==> Way(t, v, i, if t[mid].offset == RANGE then mid + 2 else mid + 1, tail)))
  {
  }

  /** How the search goes on at m when the value is in case i. */
  lemma Compared(t: seq<Entry<int>>, v: int, i: nat, m: nat)
    requires Paired(t) && Rising(t) && Ints(t) && IsInt(v) && Case(t, v, i) && m < |t| && Whole(t, 0, m)
    ensures var cmp := CmpNumber(v);
            && (i < m ==> if Near(t, v, m) then At(t, cmp, m) < 0
                          else At(t, cmp, m) > 0 && (t[m].offset == RANGE ==> At(t, cmp, m + 1) > 0))
            && (i > m ==> if Near(t, v, m) then
                            At(t, cmp, m) > 0 && (t[m].offset == RANGE ==> Near(t, v, m + 1) && At(t, cmp, m + 1) > 0)
                          else At(t, cmp, m) < 0)
            && (m < i && t[m].offset == RANGE ==> m + 2 <= i)
            && (i == m && t[m].offset != RANGE ==> At(t, cmp, m) == 0 && Near(t, v, m))
            && (i == m && t[m].offset == RANGE ==>
                (Near(t, v, m) <==> At(t, cmp, m) >= 0) && (Near(t, v, m + 1) <==> At(t, cmp, m + 1) <= 0))
  {
    hide At;
    Truncated(t, v, m);
    if t[m].offset == RANGE { Truncated(t, v, m + 1); }
    var e := if t[i].offset == RANGE then i + 1 else i;
    if i < m { assert t[e].key < t[m].key; }
    if m < i && t[m].offset == RANGE { assert t[m + 1].key < t[i].key; }
  }

  /** A numeric switch.  A value in no case gets the default; a value in a case gets there
      if and only if it is near to every label compared on the way down to that case, and
      the default otherwise.  Anything but a number is an error. */
  method SwitchNumber(t: seq<Entry<int>>, v: Operand, dflt: nat) returns (r: Maybe<nat>)
    requires Paired(t) && Rising(t) && Ints(t) && (v.Number? ==> IsInt(v.n))
    ensures r.Some? <==> v.Number?
    ensures r.Some? ==> forall i | Case(t, v.n, i) ::
              r.value == if Way(t, v.n, i, 0, |t| - 1) then Target(t, i) else dflt
    ensures r.Some? && (forall i :: !Case(t, v.n, i)) ==> r.value == dflt
  {
    hide Bin, Case, Way, Scan;
    if !v.Number? { return None; }
    var target := Search(t, CmpNumber(v.n), 0, dflt);
    forall i | Case(t, v.n, i) ensures target == if Way(t, v.n, i, 0, |t| - 1) then Target(t, i) else dflt {
      CaseIn(t, v.n, i);
      BinCase(t, v.n, i, 0, |t| - 1, dflt);
    }
    if forall i :: !Case(t, v.n, i) { BinNoCase(t, v.n, 0, |t| - 1, dflt); }
    r := Some(target);
  }

  lemma CaseIn(t: seq<Entry<int>>, v: int, i: nat)
    requires Case(t, v, i)
    ensures i < |t|
  {
  }

  /** In particular the case is found if all labels are near to the value. */
  lemma {:induction false} AllNear(t: seq<Entry<int>>, v: int, i: nat, head: nat, tail: int)
    requires Paired(t) && Window(t, head, tail) && head <= i <= tail < |t| && Whole(t, 0, i)
    requires forall k: nat | k < |t| :: Near(t, v, k)
    ensures Way(t, v, i, head, tail)
    decreases tail + 1 - head
  {
    hide Way, Middle, Window, Near;
    Halves(t, head, tail);
    WayStep(t, v, i, head, tail);
    var mid: int := Middle(t, head, tail);
    if i < mid {
      AllNear(t, v, i, head, mid - 1);
    } else if mid < i {
      AllNear(t, v, i, if t[mid].offset == RANGE then mid + 2 else mid + 1, tail);
    }
  }

  /** A case that is missed: that of the largest number. */
  lemma MissedCase()
    ensures var t := [Entry(-1, 10), Entry(0x7FFF_FFFF, 20)];
            && Paired(t) && Rising(t) && Ints(t) && Case(t, 0x7FFF_FFFF, 1)
            && Bin(t, CmpNumber(0x7FFF_FFFF), 0, 1, 1) == 1
  {
    var t := [Entry(-1, 10), Entry(0x7FFF_FFFF, 20)];
    var cmp := CmpNumber(0x7FFF_FFFF);
    assert At(t, cmp, 0) == -0x8000_0000 && At(t, cmp, 1) == 0;
    assert Middle(t, 0, 1) == 0;
  }

  // ---- strings ------------------------------------------------------------------------------

  /** strcmp. */
  function StrCmp(a: string, b: string): int {
    if a == "" && b == "" then 0
    else if a == "" then -1
    else if b == "" then 1
    else if a[0] != b[0] then a[0] as int - b[0] as int
    else StrCmp(a[1..], b[1..])
  }

  function CmpString(v: string): string -> int { key => StrCmp(v, key) }

  lemma {:induction false} StrCmpOrder(a: string, b: string, c: string)
    requires StrCmp(a, b) <= 0 && StrCmp(b, c) <= 0
    ensures StrCmp(a, c) <= 0 && (StrCmp(a, b) < 0 || StrCmp(b, c) < 0 ==> StrCmp(a, c) < 0)
  {
    if a != "" && b != "" && c != "" && a[0] == b[0] && b[0] == c[0] { StrCmpOrder(a[1..], b[1..], c[1..]); }
  }

  ghost predicate RisingStrings(t: seq<Entry<string>>, start: nat) {
    forall i, j | start <= i < j < |t| ::
      StrCmp(t[i].key, t[j].key) < 0 || (j == i + 1 && t[i].offset == RANGE && StrCmp(t[i].key, t[j].key) == 0)
  }

  lemma StringsOrdered(t: seq<Entry<string>>, v: string, start: nat)
    requires RisingStrings(t, start)
    ensures Ordered(t, CmpString(v), start)
  {
    hide StrCmp;
    forall i, j | start <= i < j < |t| && At(t, CmpString(v), i) <= 0
      ensures At(t, CmpString(v), j) < 0
           || (At(t, CmpString(v), i) == 0 && At(t, CmpString(v), j) == 0 && j == i + 1 && t[i].offset == RANGE)
    {
      StrCmpOrder(v, t[i].key, t[j].key);
    }
  }

  /** At the first place where they differ a has the smaller character, or has ended. */
  ghost predicate Less(a: string, b: string) {
    exists k: nat :: k <= |a| && k < |b| && a[..k] == b[..k] && (k == |a| || a[k] < b[k])
  }

  /** strcmp orders strings as a dictionary does. */
  lemma {:induction false} StrCmpLess(a: string, b: string)
    ensures StrCmp(a, b) < 0 <==> Less(a, b)
    ensures StrCmp(a, b) > 0 <==> Less(b, a)
  {
    if a != "" && b != "" && a[0] == b[0] {
      StrCmpLess(a[1..], b[1..]);
      LessTail(a, b);
      LessTail(b, a);
    } else if a == "" || b == "" {
      assert b != "" && a == "" ==> a[..0] == b[..0];
      assert a != "" && b == "" ==> b[..0] == a[..0];
    } else {
      LessHead(a, b);
      LessHead(b, a);
    }
  }

  lemma LessHead(a: string, b: string)
    requires a != "" && b != "" && a[0] != b[0]
    ensures Less(a, b) <==> a[0] < b[0]
  {
    assert a[..0] == b[..0];
    forall k: nat | 0 < k <= |a| && k < |b| ensures a[..k] != b[..k] { assert a[..k][0] == a[0]; }
  }

  lemma LessTail(a: string, b: string)
    requires a != "" && b != "" && a[0] == b[0]
    ensures Less(a, b) <==> Less(a[1..], b[1..])
  {
    hide Less;
    if Less(a, b) { LessShorter(a, b); }
    if Less(a[1..], b[1..]) { LessLonger(a, b); }
  }

  lemma LessShorter(a: string, b: string)
    requires a != "" && b != "" && a[0] == b[0] && Less(a, b)
    ensures Less(a[1..], b[1..])
  {
    var k: nat :| k <= |a| && k < |b| && a[..k] == b[..k] && (k == |a| || a[k] < b[k]);
    assert a[1..][..k - 1] == a[..k][1..] && b[1..][..k - 1] == b[..k][1..];
  }

  lemma LessLonger(a: string, b: string)
    requires a != "" && b != "" && a[0] == b[0] && Less(a[1..], b[1..])
    ensures Less(a, b)
  {
    var a', b' := a[1..], b[1..];
    var k: nat :| k <= |a'| && k < |b'| && a'[..k] == b'[..k] && (k == |a'| || a'[k] < b'[k]);
    assert a[..k + 1] == [a[0]] + a'[..k] && b[..k + 1] == [b[0]] + b'[..k];
  }

  /** The label or range that starts at i holds s, in the order of strcmp. */
  predicate CaseText(t: seq<Entry<string>>, s: string, i: nat) {
    && i < |t| && Whole(t, 1, i)
    && if t[i].offset == RANGE then i + 1 < |t| && StrCmp(s, t[i].key) >= 0 && StrCmp(s, t[i + 1].key) <= 0
       else s == t[i].key
  }

  function TargetText(t: seq<Entry<string>>, i: nat): nat {
    if i < |t| && t[i].offset != RANGE then t[i].offset else if i + 1 < |t| then t[i + 1].offset else 0
  }

  lemma {:induction false} StrCmpZero(a: string, b: string)
    ensures StrCmp(a, b) == 0 <==> a == b
  {
    if a != "" && b != "" {
      StrCmpZero(a[1..], b[1..]);
      assert a == [a[0]] + a[1..] && b == [b[0]] + b[1..];
    }
  }

  lemma TextIsMatch(t: seq<Entry<string>>, s: string, i: nat)
    requires Whole(t, 1, i) && i < |t|
    ensures CaseText(t, s, i) <==> Match(t, CmpString(s), i)
  {
    hide StrCmp;
    StrCmpZero(s, t[i].key);
  }

  /** A table of string labels, whose first entry is the case of the number 0: the jump
      goes to the one case that holds the string, or to the default if none does.
      Anything but that number and strings is an error. */
  method SwitchString(t: seq<Entry<string>>, v: Operand, dflt: nat) returns (r: Maybe<nat>)
    requires Paired(t) && |t| > 0 && t[0].offset != RANGE && RisingStrings(t, 1)
    ensures r.Some? <==> v.Text? || v == Number(0)
    ensures v == Number(0) ==> r == Some(t[0].offset)
    ensures v.Text? ==> forall i | CaseText(t, v.s, i) :: r == Some(TargetText(t, i))
    ensures v.Text? && (forall i :: !CaseText(t, v.s, i)) ==> r == Some(dflt)
  {
    hide Scan, Bin, Ordered, CaseText, Match, RisingStrings;
    if v == Number(0) { return Some(t[0].offset); }
    if !v.Text? { return None; }
    StringsOrdered(t, v.s, 1);
    var target := Search(t, CmpString(v.s), 1, dflt);
    forall i | CaseText(t, v.s, i) ensures target == TargetText(t, i) { TextTaken(t, v.s, i, dflt); }
    if forall i :: !CaseText(t, v.s, i) {
      forall k | 1 <= k < |t| && Whole(t, 1, k) ensures !Match(t, CmpString(v.s), k) { TextIsMatch(t, v.s, k); }
      ScanNone(t, CmpString(v.s), 1, 1, dflt);
    }
    r := Some(target);
  }

  lemma TextTaken(t: seq<Entry<string>>, s: string, i: nat, dflt: nat)
    requires Paired(t) && RisingStrings(t, 1) && CaseText(t, s, i)
    ensures Scan(t, CmpString(s), 1, dflt) == TargetText(t, i)
  {
    hide Scan, Match, Ordered, StrCmp;
    StringsOrdered(t, s, 1);
    TextIsMatch(t, s, i);
    ScanHit(t, CmpString(s), 1, 1, i, dflt);
  }
}
