/** The page layer of the allocator (src/bibopmalloc.c): which pages are free.

    Pages are numbered.  The free list holds runs of consecutive pages; `sbrk` is an
    oracle that either extends the break by what is asked for or refuses.
 */
module BibopPages {

  datatype Run = Run(start: nat, npages: nat)

  function End(r: Run): nat { r.start + r.npages }

  predicate Holds(r: Run, p: int) { r.start <= p < End(r) }

  ghost predicate Member(free: seq<Run>, p: int) {
    exists i | 0 <= i < |free| :: Holds(free[i], p)
  }

  /** Sorted by address, no run empty, none overlapping. */
  ghost predicate Ordered(free: seq<Run>) {
    && (forall i | 0 <= i < |free| :: free[i].npages > 0)
    && (forall i, j | 0 <= i < j < |free| :: End(free[i]) <= free[j].start)
  }

  /** Run i and the next one do not touch. */
  predicate Gap(free: seq<Run>, i: int)
    requires 0 <= i < |free| - 1
  {
    End(free[i]) < free[i + 1].start
  }

  ghost predicate Coalesced(free: seq<Run>) {
    Ordered(free) && forall i | 0 <= i < |free| - 1 :: Gap(free, i)
  }

  /** The neighbours i and i + 1 joined. */
  function Joined(free: seq<Run>, i: nat): (r: seq<Run>)
    requires i + 1 < |free|
    ensures |r| == |free| - 1 && r[i] == Run(free[i].start, free[i].npages + free[i + 1].npages)
    ensures forall k | 0 <= k < i :: r[k] == free[k]
    ensures forall k | i < k < |r| :: r[k] == free[k + 1]
  {
    free[..i] + [Run(free[i].start, free[i].npages + free[i + 1].npages)] + free[i + 2..]
  }

  function Inserted(free: seq<Run>, i: nat, x: Run): (r: seq<Run>)
    requires i <= |free|
    ensures |r| == |free| + 1 && r[i] == x
    ensures forall k | 0 <= k < i :: r[k] == free[k]
    ensures forall k | i < k < |r| :: r[k] == free[k - 1]
  {
    free[..i] + [x] + free[i..]
  }

  function Removed(free: seq<Run>, i: nat): (r: seq<Run>)
    requires i < |free|
    ensures |r| == |free| - 1
    ensures forall k | 0 <= k < i :: r[k] == free[k]
    ensures forall k | i <= k < |r| :: r[k] == free[k + 1]
  {
    free[..i] + free[i + 1..]
  }

  lemma MemberAt(free: seq<Run>, i: nat, p: int)
    requires i < |free| && Holds(free[i], p)
    ensures Member(free, p)
  {
  }

  lemma MemberConcat(a: seq<Run>, b: seq<Run>, p: int)
    ensures Member(a + b, p) <==> Member(a, p) || Member(b, p)
  {
    if Member(a + b, p) {
      var i :| 0 <= i < |a + b| && Holds((a + b)[i], p);
      if i < |a| { MemberAt(a, i, p); } else { MemberAt(b, i - |a|, p); }
    }
    if Member(a, p) {
      var i :| 0 <= i < |a| && Holds(a[i], p);
      MemberAt(a + b, i, p);
    }
    if Member(b, p) {
      var i :| 0 <= i < |b| && Holds(b[i], p);
      MemberAt(a + b, |a| + i, p);
    }
  }

  lemma MemberOne(x: Run, p: int)
    ensures Member([x], p) <==> Holds(x, p)
  {
    if Holds(x, p) { MemberAt([x], 0, p); }
  }

  /** The members of a list with one run singled out. */
  lemma MemberAround(a: seq<Run>, x: Run, b: seq<Run>, p: int)
    ensures Member(a + [x] + b, p) <==> Member(a, p) || Holds(x, p) || Member(b, p)
  {
    hide Member, Holds;
    MemberConcat(a + [x], b, p);
    MemberConcat(a, [x], p);
    MemberOne(x, p);
  }

  lemma JoinedMember(free: seq<Run>, i: nat, p: int)
    requires i + 1 < |free| && End(free[i]) == free[i + 1].start
    ensures Member(Joined(free, i), p) <==> Member(free, p)
  {
    hide Member;
    var a, x, y, b := free[..i], free[i], free[i + 1], free[i + 2..];
    assert free == a + [x] + ([y] + b);
    MemberAround(a, x, [y] + b, p);
    MemberConcat([y], b, p);
    MemberOne(y, p);
    MemberAround(a, Run(x.start, x.npages + y.npages), b, p);
  }

  lemma JoinedOrdered(free: seq<Run>, i: nat)
    requires Ordered(free) && i + 1 < |free| && End(free[i]) == free[i + 1].start
    ensures Ordered(Joined(free, i))
    ensures forall k | 0 <= k < i && Gap(free, k) :: Gap(Joined(free, i), k)
    ensures forall k | i <= k < |free| - 2 && Gap(free, k + 1) :: Gap(Joined(free, i), k)
  {
    hide Joined;
  }

  lemma JoinedAll(free: seq<Run>, i: nat)
    requires Ordered(free) && i + 1 < |free| && End(free[i]) == free[i + 1].start
    ensures Ordered(Joined(free, i))
    ensures forall k | 0 <= k < i && Gap(free, k) :: Gap(Joined(free, i), k)
    ensures forall k | i <= k < |free| - 2 && Gap(free, k + 1) :: Gap(Joined(free, i), k)
    ensures forall p :: Member(Joined(free, i), p) <==> Member(free, p)
  {
    hide *;
    JoinedOrdered(free, i);
    forall p ensures Member(Joined(free, i), p) <==> Member(free, p) { JoinedMember(free, i, p); }
  }

  lemma OrderedGap(free: seq<Run>)
    requires Ordered(free)
    ensures forall k | 0 <= k < |free| - 1 && free[k + 1].start != End(free[k]) :: Gap(free, k)
  {
  }

  /** A run of pages that are not free lies between its neighbours on the list. */
  lemma Between(free: seq<Run>, i: nat, x: Run)
    requires Ordered(free) && i <= |free| && x.npages > 0 && forall p | Holds(x, p) :: !Member(free, p)
    requires (forall k | 0 <= k < i :: free[k].start < x.start) && (i < |free| ==> x.start <= free[i].start)
    ensures i > 0 ==> End(free[i - 1]) <= x.start
    ensures i < |free| ==> End(x) <= free[i].start
  {
    if i > 0 && End(free[i - 1]) > x.start {
      MemberAt(free, i - 1, x.start);
    }
    if i < |free| && End(x) > free[i].start {
      MemberAt(free, i, free[i].start);
    }
  }

  lemma InsertedOrdered(free: seq<Run>, i: nat, x: Run)
    requires Coalesced(free) && i <= |free| && x.npages > 0
    requires (i > 0 ==> End(free[i - 1]) <= x.start) && (i < |free| ==> End(x) <= free[i].start)
    ensures Ordered(Inserted(free, i, x))
    ensures forall k | 0 <= k < |free| && k != i && k + 1 != i :: Gap(Inserted(free, i, x), k)
  {
    InsertedInOrder(free, i, x);
    hide Inserted, Ordered;
    var r := Inserted(free, i, x);
    forall k | 0 <= k < |free| && k != i && k + 1 != i ensures Gap(r, k) {
      assert Gap(free, if k < i then k else k - 1);
    }
  }

  lemma InsertedInOrder(free: seq<Run>, i: nat, x: Run)
    requires Ordered(free) && i <= |free| && x.npages > 0
    requires (i > 0 ==> End(free[i - 1]) <= x.start) && (i < |free| ==> End(x) <= free[i].start)
    ensures Ordered(Inserted(free, i, x))
  {
    hide Inserted;
    var r := Inserted(free, i, x);
    forall j, k | 0 <= j < k < |r| ensures End(r[j]) <= r[k].start {
      if k == i {
        BeforeAt(free, i, x, j);
      } else if j == i {
        assert r[k] == free[k - 1];
      } else {
        assert r[j] == free[if j < i then j else j - 1] && r[k] == free[if k < i then k else k - 1];
      }
    }
  }

  lemma BeforeAt(free: seq<Run>, i: nat, x: Run, j: nat)
    requires Ordered(free) && j < i <= |free| && End(free[i - 1]) <= x.start
    ensures End(free[j]) <= x.start
  {
  }

  lemma InsertedMember(free: seq<Run>, i: nat, x: Run, p: int)
    requires i <= |free|
    ensures Member(Inserted(free, i, x), p) <==> Member(free, p) || Holds(x, p)
  {
    hide Member, Holds;
    assert free == free[..i] + free[i..];
    MemberConcat(free[..i], free[i..], p);
    MemberAround(free[..i], x, free[i..], p);
  }

  /** Taking the first n pages of run i: the rest of it, if any, stays. */
  function Cut(free: seq<Run>, i: nat, n: nat): seq<Run>
    requires i < |free| && n <= free[i].npages
  {
    if free[i].npages > n then free[i := Run(free[i].start + n, free[i].npages - n)] else Removed(free, i)
  }

  lemma CutCoalesced(free: seq<Run>, i: nat, n: nat)
    requires Coalesced(free) && i < |free| && n <= free[i].npages
    ensures Coalesced(Cut(free, i, n))
  {
    hide Removed;
    var r := Cut(free, i, n);
    if |r| < |free| {
      forall k | 0 <= k < |r| - 1 ensures Gap(r, k) {
        assert Gap(free, k) && Gap(free, k + 1);
      }
    } else {
      forall k | 0 <= k < |r| - 1 ensures Gap(r, k) {
        assert Gap(free, k);
      }
    }
  }

  /** The other runs lie wholly to one side. */
  lemma Aside(free: seq<Run>, i: nat, p: int)
    requires Ordered(free) && i < |free| && Holds(free[i], p)
    ensures !Member(free[..i], p) && !Member(free[i + 1..], p)
  {
  }

  lemma CutMember(free: seq<Run>, i: nat, n: nat, p: int)
    requires Ordered(free) && i < |free| && n <= free[i].npages
    ensures Member(Cut(free, i, n), p) <==> Member(free, p) && !(free[i].start <= p < free[i].start + n)
  {
    hide Member, Ordered;
    var a, x, b := free[..i], free[i], free[i + 1..];
    assert free == a + [x] + b;
    MemberAround(a, x, b, p);
    if Holds(x, p) { Aside(free, i, p); }
    if x.npages > n {
      var y := Run(x.start + n, x.npages - n);
      assert free[i := y] == a + [y] + b;
      MemberAround(a, y, b, p);
    } else {
      MemberConcat(a, b, p);
    }
  }

  // ---- a coalesced list is determined by the pages on it --------------------------

  lemma MemberTail(free: seq<Run>, p: int)
    requires Coalesced(free) && free != []
    ensures Member(free[1..], p) <==> Member(free, p) && !Holds(free[0], p)
    ensures Member(free[1..], p) ==> End(free[0]) < p
  {
    if Member(free, p) && !Holds(free[0], p) {
      var i :| 0 <= i < |free| && Holds(free[i], p);
      assert free[1..][i - 1] == free[i];
    }
    if Member(free[1..], p) {
      var i :| 0 <= i < |free[1..]| && Holds(free[1..][i], p);
      assert free[1..][i] == free[i + 1] && Gap(free, 0);
    }
  }

  lemma TailCoalesced(free: seq<Run>)
    requires Coalesced(free) && free != []
    ensures Coalesced(free[1..])
  {
    forall i | 0 <= i < |free[1..]| - 1 ensures Gap(free[1..], i) { assert Gap(free, i + 1); }
  }

  lemma HeadBelow(a: seq<Run>, b: seq<Run>)
    requires Coalesced(a) && Coalesced(b) && a != [] && b != []
    requires forall p :: Member(a, p) <==> Member(b, p)
    ensures b[0].start <= a[0].start
    ensures a[0].start == b[0].start ==> End(b[0]) <= End(a[0])
  {
    MemberAt(a, 0, a[0].start);
    MemberTail(b, a[0].start);
    if a[0].start == b[0].start && End(a[0]) < End(b[0]) {
      MemberAt(b, 0, End(a[0]));
      MemberTail(a, End(a[0]));
      assert false;
    }
  }

  lemma {:induction false} Canonical(a: seq<Run>, b: seq<Run>)
    requires Coalesced(a) && Coalesced(b)
    requires forall p :: Member(a, p) <==> Member(b, p)
    ensures a == b
  {
    if a == [] || b == [] {
      if a != [] { MemberAt(a, 0, a[0].start); }
      if b != [] { MemberAt(b, 0, b[0].start); }
    } else {
      HeadBelow(a, b);
      HeadBelow(b, a);
      TailCoalesced(a);
      TailCoalesced(b);
      forall p ensures Member(a[1..], p) <==> Member(b[1..], p) {
        MemberTail(a, p);
        MemberTail(b, p);
      }
      Canonical(a[1..], b[1..]);
      assert a == [a[0]] + a[1..] && b == [b[0]] + b[1..];
    }
  }

  // ---- what pages are used for ------------------------------------------------------

  /** What a page below the break is used for. */
  datatype Use = Free | Big | Medium | Small

  type Uses = map<int, Use>

  ghost function Span(start: nat, n: nat): (s: set<int>)
    ensures forall p :: p in s <==> start <= p < start + n
  {
    if n == 0 then {} else Span(start, n - 1) + {start + n - 1}
  }

  lemma {:induction false} SpanSize(start: nat, n: nat)
    ensures |Span(start, n)| == n
  {
    if n > 0 { SpanSize(start, n - 1); }
  }

  ghost function Assign(use: Uses, start: nat, n: nat, k: Use): (r: Uses)
    ensures r.Keys == use.Keys + Span(start, n)
    ensures forall p | p in r :: r[p] == if start <= p < start + n then k else use[p]
  {
    map p | p in use.Keys + Span(start, n) :: if p in Span(start, n) then k else use[p]
  }

  ghost function Of(use: Uses, k: Use): (s: set<int>)
    ensures forall p :: p in s <==> p in use && use[p] == k
  {
    set p | p in use && use[p] == k
  }

  ghost function Count(use: Uses, k: Use): nat { |Of(use, k)| }

  lemma SizeSum(a: set<int>, b: set<int>, c: set<int>)
    requires a == b + c && b !! c
    ensures |a| == |b| + |c|
  {
  }

  lemma CountOther(use: Uses, start: nat, n: nat, k: Use, j: Use)
    requires j != k && Span(start, n) !! Of(use, j)
    ensures Count(Assign(use, start, n, k), j) == Count(use, j)
  {
    hide Assign, Of, Span;
    assert Of(Assign(use, start, n, k), j) == Of(use, j);
  }

  lemma CountMore(use: Uses, start: nat, n: nat, k: Use)
    requires Span(start, n) !! Of(use, k)
    ensures Count(Assign(use, start, n, k), k) == Count(use, k) + n
  {
    hide Assign, Of, Span;
    SpanSize(start, n);
    assert Of(Assign(use, start, n, k), k) == Of(use, k) + Span(start, n);
    SizeSum(Of(Assign(use, start, n, k), k), Of(use, k), Span(start, n));
  }

  lemma CountLess(use: Uses, start: nat, n: nat, from: Use, to: Use)
    requires from != to && Span(start, n) <= Of(use, from)
    ensures Count(Assign(use, start, n, to), from) == Count(use, from) - n
  {
    hide Assign, Of, Span;
    SpanSize(start, n);
    var u := Assign(use, start, n, to);
    assert Of(use, from) == Of(u, from) + Span(start, n);
    SizeSum(Of(use, from), Of(u, from), Span(start, n));
  }

  /** The free list holds exactly the pages that are free. */
  ghost predicate Tracks(free: seq<Run>, use: Uses) {
    forall p :: Member(free, p) <==> p in use && use[p] == Free
  }

  lemma NotFree(free: seq<Run>, use: Uses, x: Run)
    requires Tracks(free, use) && forall q | x.start <= q < End(x) :: q in use && use[q] != Free
    ensures forall q | Holds(x, q) :: !Member(free, q)
  {
  }

  lemma Released(free: seq<Run>, free': seq<Run>, use: Uses, x: Run)
    requires Tracks(free, use) && forall q | x.start <= q < End(x) :: q in use
    requires forall q :: Member(free', q) <==> Member(free, q) || Holds(x, q)
    ensures Tracks(free', Assign(use, x.start, x.npages, Free)) && Assign(use, x.start, x.npages, Free).Keys == use.Keys
  {
    hide Member, Assign, Span;
  }

  lemma Reserved(free: seq<Run>, free': seq<Run>, use: Uses, start: nat, n: nat, k: Use)
    requires Tracks(free, use) && k != Free
    requires forall q :: Member(free', q) <==> Member(free, q) && !(start <= q < start + n)
    ensures Tracks(free', Assign(use, start, n, k))
  {
    hide Member, Assign, Span;
  }

  lemma FirstPages(free: seq<Run>, use: Uses, i: nat, n: nat)
    requires Tracks(free, use) && Ordered(free) && i < |free| && n <= free[i].npages
    ensures Span(free[i].start, n) <= Of(use, Free)
    ensures forall k :: Assign(use, free[i].start, n, k).Keys == use.Keys
  {
    hide Assign, Span, Of;
    forall p | p in Span(free[i].start, n) ensures p in Of(use, Free) { MemberAt(free, i, p); }
  }

  /** Nothing at or beyond the break is in use or free. */
  lemma Beyond(free: seq<Run>, use: Uses, first: nat, next: nat)
    requires Tracks(free, use) && first <= next && use.Keys == Span(first, next - first)
    ensures forall q | next <= q :: q !in use && !Member(free, q)
    ensures forall n: nat, k :: Assign(use, next, n, k).Keys == Span(first, next + n - first)
              && Span(next, n) !! use.Keys
  {
    hide Assign, Span, Member;
    forall n: nat, k
      ensures Assign(use, next, n, k).Keys == Span(first, next + n - first) && Span(next, n) !! use.Keys
    {
      TwoSpans(first, next, n);
    }
  }

  lemma TwoSpans(first: nat, next: nat, n: nat)
    requires first <= next
    ensures Span(first, next - first) + Span(next, n) == Span(first, next + n - first)
    ensures Span(next, n) !! Span(first, next - first)
  {
    hide Span;
    var a, b, c := Span(first, next - first), Span(next, n), Span(first, next + n - first);
    assert forall q :: q in a || q in b <==> q in c;
  }

  lemma Extended(free: seq<Run>, use: Uses, next: nat, n: nat)
    requires Tracks(free, use) && Coalesced(free) && free != [] && End(free[|free| - 1]) == next
    ensures var i := |free| - 1; var free' := free[i := Run(free[i].start, free[i].npages + n)];
            Coalesced(free') && Tracks(free', Assign(use, next, n, Free))
  {
    hide Assign, Span, Tracks, Member;
    var i := |free| - 1;
    var free' := free[i := Run(free[i].start, free[i].npages + n)];
    forall k | 0 <= k < i ensures Gap(free', k) { assert Gap(free, k); }
    assert free == free[..i] + [free[i]] + [] && free' == free[..i] + [free'[i]] + [];
    ExtendedTracks(free[..i], free[i], use, n);
  }

  lemma ExtendedTracks(a: seq<Run>, x: Run, use: Uses, n: nat)
    requires Tracks(a + [x] + [], use)
    ensures Tracks(a + [Run(x.start, x.npages + n)] + [], Assign(use, End(x), n, Free))
  {
    hide Assign, Span, Member;
    var y, use' := Run(x.start, x.npages + n), Assign(use, End(x), n, Free);
    forall p ensures Member(a + [y] + [], p) <==> p in use' && use'[p] == Free {
      MemberAround(a, x, [], p);
      MemberAround(a, y, [], p);
    }
  }

  /** Growing the last run to n pages and taking it is taking n pages at its start. */
  lemma Overlaid(free: seq<Run>, use: Uses, n: nat, k: Use)
    requires Tracks(free, use) && free != [] && free[|free| - 1].npages <= n
    requires forall q | End(free[|free| - 1]) <= q :: q !in use
    ensures var x := free[|free| - 1];
            && Assign(Assign(use, End(x), n - x.npages, Free), x.start, n, k) == Assign(use, x.start, n, k)
            && Idle(use, x.start, n)
  {
    hide Tracks;
    var x := free[|free| - 1];
    IdleRun(free, use, |free| - 1, x.npages);
    var a, b := Assign(Assign(use, End(x), n - x.npages, Free), x.start, n, k), Assign(use, x.start, n, k);
    assert a.Keys == b.Keys;
  }

  lemma IdleRun(free: seq<Run>, use: Uses, i: nat, n: nat)
    requires Tracks(free, use) && i < |free| && n <= free[i].npages
    ensures Idle(use, free[i].start, n)
  {
    forall q | free[i].start <= q < free[i].start + n && q in use ensures use[q] == Free { MemberAt(free, i, q); }
  }

  lemma IdleBeyond(free: seq<Run>, use: Uses, first: nat, next: nat, n: nat)
    requires Tracks(free, use) && first <= next && use.Keys == Span(first, next - first)
    ensures Idle(use, next, n)
  {
    Beyond(free, use, first, next);
  }

  /** Where pages() finds room: the smallest run that is large enough, if any is. */
  ghost predicate BestFit(list: seq<Run>, n: nat, i: nat) {
    && i < |list| && n <= list[i].npages
    && forall k | 0 <= k < |list| && n <= list[k].npages :: list[i].npages <= list[k].npages
  }

  ghost predicate BestStart(list: seq<Run>, n: nat, start: nat) {
    exists i: nat | i < |list| :: BestFit(list, n, i) && start == list[i].start
  }

  ghost predicate NoFit(list: seq<Run>, n: nat) {
    forall k | 0 <= k < |list| :: list[k].npages < n
  }

  /** Where a span that no run can hold starts: in the last run if that ends at the break. */
  ghost function RoomAtEnd(list: seq<Run>, next: nat): nat {
    if list != [] && End(list[|list| - 1]) == next then list[|list| - 1].start else next
  }

  /** n pages of k more than before; what is neither free nor k is as it was. */
  ghost predicate Moved(use: Uses, use': Uses, k: Use, n: nat) {
    Count(use', k) == Count(use, k) + n && forall j | j != k && j != Free :: Count(use', j) == Count(use, j)
  }

  /** No page of the span was in use. */
  ghost predicate Idle(use: Uses, start: nat, n: nat) {
    forall q | start <= q < start + n && q in use :: use[q] == Free
  }

  /** Fresh pages add to the count of what they are used for. */
  lemma CountGrow(use: Uses, start: nat, n: nat, k: Use)
    requires Span(start, n) !! use.Keys
    ensures Count(Assign(use, start, n, k), k) == Count(use, k) + n
    ensures forall j | j != k :: Count(Assign(use, start, n, k), j) == Count(use, j)
  {
    hide Assign, Span, Count;
    CountMore(use, start, n, k);
    forall j | j != k ensures Count(Assign(use, start, n, k), j) == Count(use, j) { CountOther(use, start, n, k, j); }
  }

  /** Pages that change use move from one count to another. */
  lemma CountMove(use: Uses, start: nat, n: nat, from: Use, to: Use)
    requires from != to && Span(start, n) <= Of(use, from)
    ensures Count(Assign(use, start, n, to), to) == Count(use, to) + n
    ensures Count(Assign(use, start, n, to), from) == Count(use, from) - n
    ensures forall j | j != from && j != to :: Count(Assign(use, start, n, to), j) == Count(use, j)
  {
    hide Assign, Span, Count;
    CountMore(use, start, n, to);
    CountLess(use, start, n, from, to);
    forall j | j != from && j != to
      ensures Count(Assign(use, start, n, to), j) == Count(use, j)
    {
      CountOther(use, start, n, to, j);
    }
  }

  /** No page is lost: the pages of the four uses are all the pages there are. */
  lemma Conserved(use: Uses)
    ensures Count(use, Small) + Count(use, Medium) + Count(use, Big) + Count(use, Free) == |use|
  {
    assert use.Keys == Of(use, Small) + Of(use, Medium) + Of(use, Big) + Of(use, Free);
  }

  // ---- the store ----------------------------------------------------------------------

  datatype Maybe<T> = None | Some(value: T)

  class PageStore {
    const first: nat
    var free: seq<Run>
    var nextPage: nat
    var pFree: int
    ghost var use: Uses

    /** The free list is exactly the free pages, in its one canonical form. */
    ghost predicate Valid()
      reads this
    {
      && first <= nextPage
      && use.Keys == Span(first, nextPage - first)
      && Coalesced(free)
      && Tracks(free, use)
    }

    constructor (start: nat)
      ensures Valid() && first == start && use == map[] && pFree == 0 && free == []
    {
      first := start;
      free := [];
      nextPage := start;
      pFree := 0;
      use := map[];
    }

    /** insertfreepage: n pages come back. */
    method InsertFreePage(p: nat, n: nat)
      requires Valid() && n > 0 && forall q | p <= q < p + n :: q in use && use[q] != Free
      modifies this`free, this`use
      ensures Valid() && use == Assign(old(use), p, n, Free)
    {
      hide Member, Coalesced, Assign, Span, Holds, Tracks;
      NotFree(free, use, Run(p, n));
      Insert(p, n);
      Released(old(free), free, use, Run(p, n));
      use := Assign(use, p, n, Free);
    }

    /** The walk along the list, the insertion, and the joining. */
    method Insert(p: nat, n: nat)
      requires Coalesced(free) && n > 0 && forall q | Holds(Run(p, n), q) :: !Member(free, q)
      modifies this`free
      ensures Coalesced(free) && forall q :: Member(free, q) <==> old(Member(free, q)) || Holds(Run(p, n), q)
    {
      hide Member, Inserted, Ordered;
      var i, x := 0, Run(p, n);
      while i < |free| && p > free[i].start
        invariant i <= |free| && forall k | 0 <= k < i :: free[k].start < p
      {
        i := i + 1;
      }
      Between(free, i, x);
      InsertedOrdered(free, i, x);
      forall q ensures Member(Inserted(free, i, x), q) <==> Member(free, q) || Holds(x, q) {
        InsertedMember(free, i, x, q);
      }
      free := Inserted(free, i, x);
      Touching(i);
    }

    /** The two checks for adjacent runs. */
    method Touching(i: nat)
      requires Ordered(free) && i < |free|
      requires forall k | 0 <= k < |free| - 1 && k != i && k + 1 != i :: Gap(free, k)
      modifies this`free
      ensures Coalesced(free) && forall p :: Member(free, p) <==> old(Member(free, p))
    {
      hide Member, Ordered, Joined;
      if i + 1 < |free| && free[i + 1].start == End(free[i]) {
        JoinedAll(free, i);
        free := Joined(free, i);
      }
      OrderedGap(free);
      assert forall k | 0 <= k < |free| - 1 && k + 1 != i :: Gap(free, k);
      if i > 0 && free[i].start == End(free[i - 1]) {
        JoinedAll(free, i - 1);
        free := Joined(free, i - 1);
      }
      OrderedGap(free);
    }

    method FindBest(n: nat) returns (best: Maybe<nat>)
      ensures best.None? <==> NoFit(free, n)
      ensures best.Some? ==> BestFit(free, n, best.value)
    {
      best := None;
      var i := 0;
      while i < |free|
        invariant i <= |free|
        invariant best.None? ==> forall k | 0 <= k < i :: free[k].npages < n
        invariant best.Some? ==> best.value < i && n < free[best.value].npages
        invariant best.Some? ==> forall k | 0 <= k < i && n <= free[k].npages ::
                    free[best.value].npages <= free[k].npages
      {
        if free[i].npages == n {
          best := Some(i);
          break;
        } else if free[i].npages > n {
          if best.None? || free[i].npages < free[best.value].npages { best := Some(i); }
        }
        i := i + 1;
      }
    }

    ghost predicate Counted()
      reads this
    {
      pFree == Count(use, Free)
    }

    /** The tail of pages(): run i gives its first n pages. */
    method TakeFrom(i: nat, n: nat, ghost k: Use) returns (r: nat)
      requires Valid() && Counted() && i < |free| && n <= free[i].npages && k != Free
      modifies this`free, this`pFree, this`use
      ensures Valid() && Counted() && r == old(free[i].start) && Span(r, n) <= Of(old(use), Free)
      ensures use == Assign(old(use), r, n, k) && Moved(old(use), use, k, n)
    {
      hide Member, Ordered, Assign, Span, Holds, Tracks, Removed, Of, Count;
      r := free[i].start;
      CutCoalesced(free, i, n);
      forall q
        ensures Member(Cut(free, i, n), q) <==> Member(free, q) && !(r <= q < r + n)
      {
        CutMember(free, i, n, q);
      }
      FirstPages(free, use, i, n);
      Reserved(free, Cut(free, i, n), use, r, n, k);
      CountMove(use, r, n, Free, k);
      if free[i].npages > n {
        free := free[i := Run(free[i].start + n, free[i].npages - n)];
      } else {
        free := Removed(free, i);
      }
      pFree := pFree - n;
      use := Assign(use, r, n, k);
    }

    /** The break moves up by n pages used for k, if the system grants them. */
    method Fresh(n: nat, ghost k: Use) returns (r: nat)
      requires Valid() && Counted() && k != Free
      modifies this`nextPage, this`use
      ensures Valid() && Counted() && r == old(nextPage) && nextPage == r + n
      ensures use == Assign(old(use), r, n, k) && Moved(old(use), use, k, n)
    {
      hide Member, Coalesced, Assign, Holds, Tracks, Of, Count;
      r := nextPage;
      Beyond(free, use, first, nextPage);
      Reserved(free, free, use, r, n, k);
      CountGrow(use, r, n, k);
      nextPage := nextPage + n;
      use := Assign(use, r, n, k);
    }

    /** The last run of the list, which ends at the break, grows with it. */
    method ExtendLast(n: nat)
      requires Valid() && Counted() && free != [] && End(free[|free| - 1]) == nextPage
      modifies this`free, this`nextPage, this`pFree, this`use
      ensures Valid() && Counted() && nextPage == old(nextPage) + n
      ensures var last := old(free)[|old(free)| - 1];
                free == old(free)[|old(free)| - 1 := Run(last.start, last.npages + n)]
      ensures use == Assign(old(use), old(nextPage), n, Free) && forall j | j != Free ::
                Count(use, j) == Count(old(use), j)
    {
      hide Member, Coalesced, Assign, Holds, Tracks, Of, Count;
      var i := |free| - 1;
      Beyond(free, use, first, nextPage);
      Extended(free, use, nextPage, n);
      CountGrow(use, nextPage, n, Free);
      free := free[i := Run(free[i].start, free[i].npages + n)];
      use := Assign(use, nextPage, n, Free);
      pFree := pFree + n;
      nextPage := nextPage + n;
    }

    /** No run is large enough, but the last one ends at the break. */
    method Extend(n: nat, ghost k: Use) returns (r: nat)
      requires Valid() && Counted() && k != Free
      requires free != [] && free[|free| - 1].npages < n && End(free[|free| - 1]) == nextPage
      modifies this`free, this`nextPage, this`pFree, this`use
      ensures Valid() && Counted() && r == old(free[|free| - 1].start) && nextPage == r + n && Idle(old(use), r, n)
      ensures use == Assign(old(use), r, n, k) && Moved(old(use), use, k, n)
    {
      hide Member, Coalesced, Assign, Holds, Tracks, Of, Span, Count, Idle;
      var last := free[|free| - 1];
      Overlaid(free, use, n, k);
      Beyond(free, use, first, nextPage);
      ExtendLast(n - last.npages);
      r := TakeFrom(|free| - 1, n, k);
    }

    /** pages: n consecutive pages for use k. */
    method Pages(n: nat, granted: bool, ghost k: Use) returns (r: Maybe<nat>)
      requires Valid() && Counted() && k != Free
      modifies this`free, this`nextPage, this`pFree, this`use
      ensures Valid() && Counted()
      ensures r.None? <==> NoFit(old(free), n) && !granted
      ensures r.None? ==> unchanged(this)
      ensures r.Some? ==>
                && Idle(old(use), r.value, n) && use == Assign(old(use), r.value, n, k)
                && Moved(old(use), use, k, n)
      ensures r.Some? && !NoFit(old(free), n) ==> nextPage == old(nextPage) && BestStart(old(free), n, r.value)
      ensures r.Some? && NoFit(old(free), n) ==>
                nextPage == r.value + n && r.value == RoomAtEnd(old(free), old(nextPage))
    {
      hide Member, Coalesced, Assign, Holds, Tracks, Of, Count, Span, Idle, Moved;
      if free != [] {
        var best := FindBest(n);
        if best.Some? {
          IdleRun(free, use, best.value, n);
          var s := TakeFrom(best.value, n, k);
          return Some(s);
        }
        if End(free[|free| - 1]) == nextPage {
          if !granted { return None; }
          var s := Extend(n, k);
          return Some(s);
        }
      }
      if !granted { return None; }
      IdleBeyond(free, use, first, nextPage, n);
      var s := Fresh(n, k);
      r := Some(s);
    }
  }
}
