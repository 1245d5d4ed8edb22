/** The alarm scheduler of src/call_out.c as a refinement of a plain one.

    The plain scheduler is, per object, the bag of its pending alarms.  The class below
    does what the driver does with its wheel of slots; every operation appends to a
    ghost log what it means for the plain scheduler, and the wheel's contents are at all
    times what the log makes of the initial contents.
 */
module CallOut {
  import opened CallOutWheel

  // ---- the plain scheduler ------------------------------------------------

  type Pending = map<Obj, multiset<Call>>

  datatype Event =
    | New(o: Obj, c: Call, now: nat)
    | Drop(o: Obj, c: Call)
    | DropAll(o: Obj)
    | Swap(o: Obj, p: Obj)
    | Fire(o: Obj, c: Call, tick: nat, now: nat)

  function Of(p: Pending, o: Obj): multiset<Call> { if o in p then p[o] else multiset{} }

  /** An alarm that fires is gone, or put back for later if it repeats. */
  function Fired(m: multiset<Call>, c: Call, now: nat): multiset<Call> {
    if c.reload > 0 then m - multiset{c} + multiset{c.(when := now + c.reload)} else m - multiset{c}
  }

  function Apply(p: Pending, e: Event): Pending {
    match e
    case New(o, c, _) => p[o := Of(p, o) + multiset{c}]
    case Drop(o, c) => p[o := Of(p, o) - multiset{c}]
    case DropAll(o) => p[o := multiset{}]
    case Swap(o, q) => p[o := Of(p, q)][q := Of(p, o)]
    case Fire(o, c, _, now) => p[o := Fired(Of(p, o), c, now)]
  }

  function Run(p: Pending, log: seq<Event>): Pending {
    if log == [] then p else Apply(Run(p, log[..|log| - 1]), log[|log| - 1])
  }

  /** Nothing is pending before t. */
  ghost predicate NoneBefore(p: Pending, t: nat) {
    forall o, c | o in p && c in p[o] :: t <= c.when
  }

  /** An event makes sense: what is dropped or fired is pending, what is added lies in
      the future, and what fires is due exactly now with nothing due earlier. */
  ghost predicate Legal(p: Pending, e: Event) {
    match e
    case New(o, c, now) => now < c.when
    case Drop(o, c) => c in Of(p, o)
    case DropAll(_) => true
    case Swap(o, q) => o != q
    case Fire(o, c, tick, now) => c in Of(p, o) && c.when == tick <= now && NoneBefore(p, tick)
  }

  ghost predicate LegalRun(p: Pending, log: seq<Event>) {
    forall k | 0 <= k < |log| :: Legal(Run(p, log[..k]), log[k])
  }

  predicate HasTime(e: Event) { e.New? || e.Fire? }

  /** The clock never runs backwards along the log, and has not passed t. */
  ghost predicate Clocked(log: seq<Event>, t: nat) {
    && (forall k | 0 <= k < |log| && HasTime(log[k]) :: log[k].now <= t)
    && (forall j, k | 0 <= j < k < |log| && HasTime(log[j]) && HasTime(log[k]) :: log[j].now <= log[k].now)
  }

  /** The alarm c is pending at o. */
  predicate Has(p: Pending, o: Obj, c: Call) { c in Of(p, o) }

  /** Every alarm has an id of its own, below n. */
  ghost predicate Ids(p: Pending, n: int) {
    && (forall o, c | Has(p, o, c) :: c.id < n && Of(p, o)[c] == 1)
    && (forall o, c, q, d | Has(p, o, c) && Has(p, q, d) && c.id == d.id :: o == q && c == d)
  }

  lemma IdsMore(p: Pending, n: int, n': int)
    requires Ids(p, n) && n <= n'
    ensures Ids(p, n')
  {
  }

  /** One object's alarms become fewer. */
  lemma IdsFewer(p: Pending, o: Obj, m: multiset<Call>, n: int)
    requires Ids(p, n) && m <= Of(p, o)
    ensures Ids(p[o := m], n)
  {
    var p' := p[o := m];
    forall x, c | Has(p', x, c) ensures Has(p, x, c) && Of(p', x)[c] == 1 {
      assert Of(p', x)[c] <= Of(p, x)[c];
      assert Has(p, x, c);
    }
  }

  lemma IdsSwap(p: Pending, o: Obj, q: Obj, n: int)
    requires Ids(p, n)
    ensures Ids(p[o := Of(p, q)][q := Of(p, o)], n)
  {
    var p' := p[o := Of(p, q)][q := Of(p, o)];
    forall x ensures Of(p', x) == Of(p, Across(x, o, q)) {
    }
    hide Of;
    forall x, c | Has(p', x, c) ensures Has(p, Across(x, o, q), c) && Of(p', x)[c] == 1 {
      assert Has(p, Across(x, o, q), c);
    }
  }

  function Across(x: Obj, o: Obj, q: Obj): Obj { if x == o then q else if x == q then o else x }

  ghost predicate Unused(p: Pending, id: int) { forall x, d | Has(p, x, d) :: d.id != id }

  /** An alarm with an id that no other has. */
  lemma IdsAdded(p: Pending, o: Obj, c: Call, n: int)
    requires Ids(p, n) && c.id < n && Unused(p, c.id)
    ensures Ids(p[o := Of(p, o) + multiset{c}], n)
  {
    var p' := p[o := Of(p, o) + multiset{c}];
    assert !Has(p, o, c);
    forall x, d | Has(p', x, d) ensures Of(p', x)[d] == 1 && ((x == o && d == c) || (Has(p, x, d) && d != c)) {
      if x != o || d != c { assert Has(p, x, d); }
    }
  }

  /** A new alarm, with an id not yet given out. */
  lemma IdsNew(p: Pending, o: Obj, c: Call, n: int)
    requires Ids(p, c.id) && c.id < n
    ensures Ids(p[o := Of(p, o) + multiset{c}], n)
  {
    IdsMore(p, c.id, n);
    IdsAdded(p, o, c, n);
  }

  /** One alarm gets another due time. */
  lemma IdsPutBack(p: Pending, o: Obj, c: Call, when: nat, n: int)
    requires Ids(p, n) && Has(p, o, c)
    ensures Ids(p[o := Of(p, o) - multiset{c} + multiset{c.(when := when)}], n)
  {
    hide Ids;
    var c', m := c.(when := when), Of(p, o) - multiset{c};
    IdsFewer(p, o, m, n);
    IdGone(p, o, c, n);
    assert p[o := m + multiset{c'}] == p[o := m][o := m + multiset{c'}];
    IdsAdded(p[o := m], o, c', n);
  }

  lemma IdGone(p: Pending, o: Obj, c: Call, n: int)
    requires Ids(p, n) && Has(p, o, c)
    ensures c.id < n && Unused(p[o := Of(p, o) - multiset{c}], c.id)
  {
    var p' := p[o := Of(p, o) - multiset{c}];
    forall x, d | Has(p', x, d) ensures Has(p, x, d) && d != c {
      assert Of(p, o)[c] == 1;
      assert Has(p, x, d);
    }
  }

  lemma IdsApply(p: Pending, e: Event, n: int)
    requires Ids(p, n) && Legal(p, e) && (e.New? ==> Ids(p, e.c.id) && e.c.id < n)
    ensures Ids(Apply(p, e), n)
  {
    hide Ids, Of, NoneBefore;
    match e
    case New(o, c, _) => IdsNew(p, o, c, n);
    case Drop(o, c) => IdsFewer(p, o, Of(p, o) - multiset{c}, n);
    case DropAll(o) => IdsFewer(p, o, multiset{}, n);
    case Swap(o, q) => IdsSwap(p, o, q, n);
    case Fire(o, c, _, now) =>
      if c.reload > 0 { IdsPutBack(p, o, c, now + c.reload, n); } else { IdsFewer(p, o, Of(p, o) - multiset{c}, n); }
  }

  lemma RunSnoc(p: Pending, log: seq<Event>, e: Event)
    ensures Run(p, log + [e]) == Apply(Run(p, log), e)
    ensures LegalRun(p, log) && Legal(Run(p, log), e) ==> LegalRun(p, log + [e])
  {
    var l := log + [e];
    assert l[..|log|] == log && l[|log|] == e;
    if LegalRun(p, log) && Legal(Run(p, log), e) {
      forall k | 0 <= k < |l| ensures Legal(Run(p, l[..k]), l[k]) {
        if k < |log| { assert l[..k] == log[..k]; }
      }
    }
  }

  lemma ClockSnoc(log: seq<Event>, e: Event, t: nat)
    requires Clocked(log, t) && (HasTime(e) ==> e.now == t)
    ensures Clocked(log + [e], t)
  {
  }

  // ---- alarm lists of all objects -----------------------------------------

  type Lists = map<Obj, seq<Call>>

  function Get(a: Lists, o: Obj): seq<Call> { if o in a then a[o] else [] }

  ghost function Heads(a: Lists): map<Obj, nat> {
    map o | o in a && a[o] != [] :: a[o][0].when
  }

  ghost function Bags(a: Lists): Pending {
    map o | o in a :: multiset(a[o])
  }

  ghost predicate ListsOk(a: Lists) {
    forall o | o in a :: Sorted(a[o]) && |a[o]| <= MAX_CALL_OUT
  }

  ghost predicate After(a: Lists, t: nat) {
    forall o, i | o in a && 0 <= i < |a[o]| :: t <= a[o][i].when
  }

  lemma HeadsSet(a: Lists, o: Obj, l: seq<Call>)
    ensures Heads(a[o := l]) == if l == [] then Heads(a) - {o} else Heads(a)[o := l[0].when]
  {
  }

  lemma HeadOf(a: Lists, o: Obj)
    ensures if Get(a, o) == [] then o !in Heads(a) else o in Heads(a) && Heads(a)[o] == Get(a, o)[0].when
  {
  }

  lemma BagsSet(a: Lists, o: Obj, l: seq<Call>)
    ensures Bags(a[o := l]) == Bags(a)[o := multiset(l)]
  {
  }

  lemma BagsOf(a: Lists, o: Obj)
    ensures Of(Bags(a), o) == multiset(Get(a, o))
  {
  }

  lemma AfterBags(a: Lists, t: nat)
    requires After(a, t)
    ensures NoneBefore(Bags(a), t)
  {
    forall o, c | o in Bags(a) && c in Bags(a)[o] ensures t <= c.when {
      assert c in a[o];
      var i :| 0 <= i < |a[o]| && a[o][i] == c;
    }
  }

  lemma ListOk(a: Lists, o: Obj, t: nat)
    requires ListsOk(a) && After(a, t)
    ensures Sorted(Get(a, o)) && |Get(a, o)| <= MAX_CALL_OUT
    ensures forall i | 0 <= i < |Get(a, o)| :: t <= Get(a, o)[i].when
  {
  }

  /** An alarm goes in front of those due at the same time, and behind those due earlier. */
  ghost predicate PutIn(l: seq<Call>, c: Call, l': seq<Call>) {
    exists i: nat :: Place(l, c.when, i) && l' == With(l, c, i)
  }

  lemma PutAt(l: seq<Call>, c: Call, i: nat)
    requires Place(l, c.when, i)
    ensures PutIn(l, c, With(l, c, i))
  {
  }

  // ---- sums over objects --------------------------------------------------

  ghost function Sum(known: seq<Obj>, a: Lists, f: seq<Call> -> nat): nat {
    if known == [] then 0 else f(Get(a, known[0])) + Sum(known[1..], a, f)
  }

  ghost predicate Knows(known: seq<Obj>, a: Lists) {
    (forall i, j | 0 <= i < j < |known| :: known[i] != known[j]) && forall o | o in a :: o in known
  }

  lemma {:induction false} SumOther(known: seq<Obj>, a: Lists, f: seq<Call> -> nat, o: Obj, l: seq<Call>)
    requires o !in known
    ensures Sum(known, a[o := l], f) == Sum(known, a, f)
  {
    if known != [] { SumOther(known[1..], a, f, o, l); }
  }

  lemma {:induction false} SumSet(known: seq<Obj>, a: Lists, f: seq<Call> -> nat, o: Obj, l: seq<Call>)
    requires o in known && forall i, j | 0 <= i < j < |known| :: known[i] != known[j]
    ensures Sum(known, a[o := l], f) + f(Get(a, o)) == Sum(known, a, f) + f(l)
  {
    if known[0] == o {
      SumOther(known[1..], a, f, o, l);
    } else {
      SumSet(known[1..], a, f, o, l);
    }
  }

  /** Remembering one more object changes no sum. */
  lemma {:induction false} SumKnow(known: seq<Obj>, a: Lists, f: seq<Call> -> nat, o: Obj)
    requires f([]) == 0 && o !in a
    ensures Sum(known + [o], a, f) == Sum(known, a, f)
  {
    if known == [] {
      assert [] + [o] == [o];
    } else {
      assert (known + [o])[1..] == known[1..] + [o];
      SumKnow(known[1..], a, f, o);
    }
  }

  function Len(l: seq<Call>): nat { |l| }

  /** How many alarms of the list are due by t. */
  ghost function DueIn(l: seq<Call>, t: nat): nat {
    if l == [] then 0 else (if l[0].when <= t then 1 else 0) + DueIn(l[1..], t)
  }

  ghost function DueBy(t: nat): seq<Call> -> nat { l => DueIn(l, t) }

  lemma NoneDue(t: nat)
    ensures Len([]) == 0 && DueBy(t)([]) == 0
  {
  }

  lemma LenIs(l: seq<Call>)
    ensures Len(l) == |l|
  {
  }

  lemma DueIs(l: seq<Call>, t: nat)
    ensures DueBy(t)(l) == DueIn(l, t)
  {
  }

  lemma {:induction false} DueConcat(a: seq<Call>, b: seq<Call>, t: nat)
    ensures DueIn(a + b, t) == DueIn(a, t) + DueIn(b, t)
  {
    if a == [] {
      assert a + b == b;
    } else {
      assert (a + b)[1..] == a[1..] + b;
      DueConcat(a[1..], b, t);
    }
  }

  lemma DueWith(l: seq<Call>, c: Call, i: nat, t: nat)
    requires i <= |l|
    ensures DueIn(With(l, c, i), t) == DueIn(l, t) + if c.when <= t then 1 else 0
  {
    assert l == l[..i] + l[i..];
    DueConcat(l[..i] + [c], l[i..], t);
    DueConcat(l[..i], [c], t);
    DueConcat(l[..i], l[i..], t);
  }

  lemma DueWithout(l: seq<Call>, i: nat, t: nat)
    requires i < |l|
    ensures DueIn(l, t) == DueIn(Without(l, i), t) + if l[i].when <= t then 1 else 0
  {
    assert l == With(Without(l, i), l[i], i);
    DueWith(Without(l, i), l[i], i, t);
  }

  lemma TakenOk(a: Lists, o: Obj, i: nat, t: nat, now: nat)
    requires ListsOk(a) && After(a, t) && i < |Get(a, o)|
    ensures var l := Get(a, o); var l' := Without(l, i);
            && Sorted(l') && |l'| <= MAX_CALL_OUT && (forall k | 0 <= k < |l'| :: t <= l'[k].when)
            && multiset(l') == Of(Bags(a), o) - multiset{l[i]}
            && DueIn(l, now) == DueIn(l', now) + if l[i].when <= now then 1 else 0
  {
    hide DueIn, Sorted, Bags, Without;
    var l := Get(a, o);
    ListOk(a, o, t);
    WithoutSorted(l, i);
    WithoutBag(l, i);
    BagsOf(a, o);
    DueWithout(l, i, now);
  }

  lemma SumSwap(known: seq<Obj>, a: Lists, f: seq<Call> -> nat, o: Obj, p: Obj)
    requires o in known && p in known && o != p && forall i, j | 0 <= i < j < |known| :: known[i] != known[j]
    ensures Sum(known, a[o := Get(a, p)][p := Get(a, o)], f) == Sum(known, a, f)
  {
    SumSet(known, a, f, o, Get(a, p));
    SumSet(known, a[o := Get(a, p)], f, p, Get(a, o));
  }

  /** The earliest due times while two objects are off the wheel, one is back, both are. */
  lemma SwapHeads(a: Lists, o: Obj, p: Obj, h2: map<Obj, nat>, h3: map<Obj, nat>)
    requires o != p && h2 == Heads(a) - {o} - {p}
    requires h3 == if Get(a, p) == [] then h2 else h2[o := Get(a, p)[0].when]
    ensures var a' := a[o := Get(a, p)][p := Get(a, o)]; var lo := Get(a, o);
            && Heads(a') == (if lo == [] then h3 else h3[p := lo[0].when])
            && (forall x | x in h2 :: x in a' && a'[x] != [] && a'[x][0].when == h2[x])
            && (forall x | x in h3 :: x in a' && a'[x] != [] && a'[x][0].when == h3[x])
            && o !in h2 && p !in h3
  {
    var lo, lp := Get(a, o), Get(a, p);
    HeadsSet(a, o, lp);
    HeadsSet(a[o := lp], p, lo);
  }

  lemma Swapped(a: Lists, o: Obj, p: Obj, t: nat)
    requires ListsOk(a) && After(a, t) && o != p
    ensures var a' := a[o := Get(a, p)][p := Get(a, o)];
            && ListsOk(a') && After(a', t) && Legal(Bags(a), Swap(o, p)) && Apply(Bags(a), Swap(o, p)) == Bags(a')
  {
    ListOk(a, o, t);
    ListOk(a, p, t);
    BagsOf(a, o);
    BagsOf(a, p);
    BagsSet(a, o, Get(a, p));
    BagsSet(a[o := Get(a, p)], p, Get(a, o));
  }

  lemma Dropping(a: Lists, o: Obj, c: Call)
    requires c in Get(a, o)
    ensures Legal(Bags(a), Drop(o, c))
    ensures Apply(Bags(a), Drop(o, c)) == Bags(a)[o := Of(Bags(a), o) - multiset{c}]
  {
    BagsOf(a, o);
  }

  lemma Adding(a: Lists, o: Obj, c: Call, now: nat)
    requires now < c.when
    ensures Legal(Bags(a), New(o, c, now))
    ensures Apply(Bags(a), New(o, c, now)) == Bags(a)[o := Of(Bags(a), o) + multiset{c}]
  {
  }

  lemma AllDropped(a: Lists, o: Obj, t: nat)
    ensures Legal(Bags(a), DropAll(o)) && Apply(Bags(a), DropAll(o)) == Bags(a)[o := multiset([])]
    ensures Sorted([]) && DueIn([], t) == 0
  {
  }

  // ---- what is due --------------------------------------------------------

  predicate HeadDue(l: seq<Obj>, a: Lists, t: nat)
    requires l != []
  {
    l[0] in a && a[l[0]] != [] && a[l[0]][0].when <= t
  }

  lemma PlaceIs(l: seq<Call>, when: nat, i: nat)
    requires i <= |l| && (forall k | 0 <= k < i :: l[k].when < when) && (i < |l| ==> when <= l[i].when)
    ensures Place(l, when, i)
  {
  }

  /** The object at the head of a slot really has alarms. */
  lemma SlotHead(slots: seq<seq<Obj>>, a: Lists, s: nat)
    requires Placed(slots, Heads(a)) && s < NUM_SLOTS && slots[s] != []
    ensures var o := slots[s][0]; o in a && a[o] != [] && Slot(a[o][0].when) == s
  {
    assert SlotOk(slots[s], Heads(a), s);
  }

  lemma HeadIsDue(slots: seq<seq<Obj>>, a: Lists, t: nat)
    requires Placed(slots, Heads(a)) && After(a, t) && slots[Slot(t)] != [] && HeadDue(slots[Slot(t)], a, t)
    ensures var o := slots[Slot(t)][0]; o in a && a[o] != [] && a[o][0].when == t
  {
  }

  /** Taking the first alarm of o, due now, and putting it back (at i) if it repeats. */
  lemma Firing(a: Lists, o: Obj, t: nat, now: nat, l: seq<Call>, i: nat)
    requires ListsOk(a) && After(a, t) && t <= now && o in a && a[o] != [] && a[o][0].when == t
    requires var c := a[o][0]; var c' := c.(when := now + c.reload);
             if c.reload > 0 then Place(a[o][1..], c'.when, i) && l == With(a[o][1..], c', i) else l == a[o][1..]
    ensures Sorted(l) && |l| <= MAX_CALL_OUT && (forall k | 0 <= k < |l| :: t <= l[k].when)
    ensures |l| == |a[o]| - if a[o][0].reload > 0 then 0 else 1
    ensures DueIn(a[o], now) == DueIn(l, now) + 1
    ensures var e := Fire(o, a[o][0], t, now); Legal(Bags(a), e) && Apply(Bags(a), e) == Bags(a)[o := multiset(l)]
  {
    hide Bags, DueIn, With, Without, Sorted, Legal, Apply, ListsOk, After;
    var c, rest := a[o][0], a[o][1..];
    assert rest == Without(a[o], 0) by { FirstOut(a[o]); }
    TakenOk(a, o, 0, t, now);
    ListOk(a, o, t);
    FireLegal(a, o, t, now);
    FireApply(a, o, c, t, now);
    if c.reload > 0 {
      var c' := c.(when := now + c.reload);
      WithSorted(rest, c', i);
      WithBag(rest, c', i);
      DueWith(rest, c', i, now);
    }
  }

  lemma FirstOut(l: seq<Call>)
    requires l != []
    ensures l[1..] == Without(l, 0)
  {
  }

  lemma FireLegal(a: Lists, o: Obj, t: nat, now: nat)
    requires After(a, t) && t <= now && o in a && a[o] != [] && a[o][0].when == t
    ensures Legal(Bags(a), Fire(o, a[o][0], t, now))
  {
    AfterBags(a, t);
    BagsOf(a, o);
  }

  lemma FireApply(a: Lists, o: Obj, c: Call, t: nat, now: nat)
    ensures var e := Fire(o, c, t, now); var m := Of(Bags(a), o) - multiset{c};
            && (c.reload > 0 ==> Apply(Bags(a), e) == Bags(a)[o := m + multiset{c.(when := now + c.reload)}])
            && (c.reload == 0 ==> Apply(Bags(a), e) == Bags(a)[o := m])
  {
  }

  /** When the head of slot t mod NUM_SLOTS is not due at t, nothing is due at t: an alarm
      due then would be its object's first, and its object would be in that slot and not
      behind later ones. */
  lemma TickDone(slots: seq<seq<Obj>>, a: Lists, t: nat)
    requires Placed(slots, Heads(a)) && ListsOk(a) && After(a, t)
    requires slots[Slot(t)] == [] || !HeadDue(slots[Slot(t)], a, t)
    ensures After(a, t + 1)
  {
    forall o, i | o in a && 0 <= i < |a[o]| ensures t + 1 <= a[o][i].when {
      if a[o][i].when == t { DueAtHead(slots, a, t, o, i); }
    }
  }

  lemma DueAtHead(slots: seq<seq<Obj>>, a: Lists, t: nat, o: Obj, i: nat)
    requires Placed(slots, Heads(a)) && ListsOk(a) && After(a, t)
    requires o in a && i < |a[o]| && a[o][i].when == t
    ensures slots[Slot(t)] != [] && HeadDue(slots[Slot(t)], a, t)
  {
    var l, heads := slots[Slot(t)], Heads(a);
    assert SlotOk(l, heads, Slot(t));
    assert t <= a[o][0].when <= a[o][i].when;
    assert heads[o] == t && o in l;
    var k :| 0 <= k < |l| && l[k] == o;
    assert heads[l[0]] <= heads[l[k]];
  }

  // ---- scanning ahead -----------------------------------------------------

  /** t is the earliest due time of any alarm. */
  ghost predicate Earliest(a: Lists, t: nat) {
    After(a, t) && exists o, i :: o in a && 0 <= i < |a[o]| && a[o][i].when == t
  }

  /** The time to sleep: until the earliest alarm if that is under 60 seconds away, and
      60 seconds otherwise. */
  ghost predicate Wait(a: Lists, now: nat, sec: nat, usec: nat) {
    && usec < 1000000
    && (forall t | now <= t < now + 60 * TIME_RES && Earliest(a, t) :: sec * 1000000 + usec == (t - now) * 100000)
    && (After(a, now + 60 * TIME_RES) ==> sec == 60 && usec == 0)
    && (After(a, now + 60 * TIME_RES) || exists t :: now <= t < now + 60 * TIME_RES && Earliest(a, t))
  }

  function NextSlot(slot: nat, ghost t: nat): (r: nat)
    requires t > 0 && slot == Slot(t - 1)
    ensures r == Slot(t)
  {
    (slot + 1) % NUM_SLOTS
  }

  /** Due times in one slot differ by multiples of NUM_SLOTS, more than 60 seconds. */
  lemma SameSlot(t: nat, when: nat)
    requires Slot(t) == Slot(when) && t <= when < t + NUM_SLOTS
    ensures t == when
  {
  }

  lemma LastSlot(t: nat, e: nat)
    requires Slot(t) == Slot(e) && t <= e < t + NUM_SLOTS
    ensures t == e
  {
  }

  lemma NotLast(t: nat, e: nat)
    requires Slot(t) != Slot(e) && t <= e
    ensures t < e
  {
  }

  lemma EarliestIs(a: Lists, o: Obj, t: nat)
    requires After(a, t) && o in a && a[o] != [] && a[o][0].when == t
    ensures Earliest(a, t) && !After(a, t + 1)
    ensures forall t' | Earliest(a, t') :: t' == t
  {
  }

  lemma NotDue(l: seq<Obj>, a: Lists, t: nat)
    requires l != [] && l[0] in a && a[l[0]] != [] && t < a[l[0]][0].when
    ensures !HeadDue(l, a, t)
  {
  }

  /** What a callback can do to the scheduler. */
  datatype Op =
    | Create(o: Obj, delay: int, reload: int)
    | Remove(o: Obj, id: int)
    | RemoveAll(o: Obj)
    | Exchange(o: Obj, p: Obj)
    | Raise

  // ---- what a sweep does --------------------------------------------------

  /** Does the operation end in an error? */
  predicate Fails(p: Pending, op: Op) { op.Raise? || (op.Create? && |Of(p, op.o)| >= MAX_CALL_OUT) }

  /** Does it change anything, and so leave an event? */
  ghost predicate Leaves(p: Pending, op: Op) {
    match op
    case Create(_, _, _) => true
    case Remove(o, id) => exists c :: Has(p, o, c) && c.id == id
    case RemoveAll(o) => Of(p, o) != multiset{}
    case Exchange(o, q) => o != q
    case Raise => false
  }

  /** The event it leaves; id is the next alarm's. */
  ghost predicate Leaving(p: Pending, id: int, op: Op, now: nat, e: Event) {
    match op
    case Create(o, delay, reload) =>
      e == if Fails(p, op) then DropAll(o)
           else New(o, Call(id, now + if delay <= 0 then 1 else delay, if reload <= 0 then 0 else reload), now)
    case Remove(o, i) => e.Drop? && e.o == o && Has(p, o, e.c) && e.c.id == i
    case RemoveAll(o) => e == DropAll(o)
    case Exchange(o, q) => e == Swap(o, q)
    case Raise => false
  }

  function NextId(id: int, done: seq<Event>): int
    decreases done
  {
    if done == [] then id else NextId(if done[0].New? then id + 1 else id, done[1..])
  }

  /** A callback does its operations in order up to the first that fails, and leaves just
      their events. */
  ghost predicate Callback(p: Pending, id: int, ops: seq<Op>, now: nat, done: seq<Event>, failed: bool)
    decreases ops
  {
    if ops == [] then done == [] && !failed
    else if !Leaves(p, ops[0]) then
      if Fails(p, ops[0]) then done == [] && failed else Callback(p, id, ops[1..], now, done, failed)
    else
      && done != [] && Leaving(p, id, ops[0], now, done[0])
      && if Fails(p, ops[0]) then done[1..] == [] && failed
         else Callback(Apply(p, done[0]), NextId(id, done[..1]), ops[1..], now, done[1..], failed)
  }

  /** One alarm served: fired, its callback run, and turned off if that went wrong. */
  datatype Round = Round(o: Obj, c: Call, tick: nat, done: seq<Event>, failed: bool, off: seq<Event>)

  function Events(r: Round, now: nat): seq<Event> { [Fire(r.o, r.c, r.tick, now)] + r.done + r.off }

  /** An alarm put back for later. */
  function Again(c: Call, now: nat): Call { c.(when := now + c.reload) }

  /** The alarm fired is due at its tick, with nothing due earlier.  It is turned off if
      and only if it repeats, its callback has failed, and it is still there. */
  ghost predicate Served(p: Pending, id: int, ops: seq<Op>, now: nat, r: Round) {
    var e := Fire(r.o, r.c, r.tick, now);
    var p1 := Apply(p, e);
    var again := Again(r.c, now);
    && Legal(p, e) && Callback(p1, id, ops, now, r.done, r.failed)
    && r.off == if r.failed && r.c.reload > 0 && Has(Run(p1, r.done), r.o, again) then [Drop(r.o, again)] else []
  }

  function AllEvents(rounds: seq<Round>, now: nat): seq<Event> {
    if rounds == [] then [] else AllEvents(rounds[..|rounds| - 1], now) + Events(rounds[|rounds| - 1], now)
  }

  /** The n-th alarm served runs the n-th callback. */
  ghost predicate Swept(p: Pending, id: int, script: nat -> seq<Op>, now: nat, rounds: seq<Round>) {
    forall n: nat | n < |rounds| :: ServedAt(p, id, script, now, rounds, n)
  }

  ghost predicate ServedAt(p: Pending, id: int, script: nat -> seq<Op>, now: nat, rounds: seq<Round>, n: nat)
    requires n < |rounds|
  {
    var log := AllEvents(rounds[..n], now);
    Served(Run(p, log), NextId(id, log), script(n), now, rounds[n])
  }

  /** What one operation leaves. */
  ghost predicate Left(p: Pending, id: int, op: Op, now: nat, done: seq<Event>, failed: bool) {
    && failed == Fails(p, op)
    && if Leaves(p, op) then |done| == 1 && Leaving(p, id, op, now, done[0]) else done == []
  }

  lemma CallbackEnds(p: Pending, id: int, ops: seq<Op>, now: nat, done: seq<Event>)
    requires ops != [] && Left(p, id, ops[0], now, done, true)
    ensures Callback(p, id, ops, now, done, true)
  {
    hide Leaves, Leaving, Fails;
  }

  lemma CallbackGoesOn(p: Pending, id: int, ops: seq<Op>, now: nat, first: seq<Event>, rest: seq<Event>, failed: bool)
    requires ops != [] && Left(p, id, ops[0], now, first, false)
    requires Callback(Run(p, first), NextId(id, first), ops[1..], now, rest, failed)
    ensures Callback(p, id, ops, now, first + rest, failed)
  {
    hide Leaves, Leaving, Fails, Apply;
    if first == [] {
      assert first + rest == rest;
    } else {
      assert first == [first[0]] == (first + rest)[..1] && (first + rest)[1..] == rest;
      RunOne(p, first[0]);
    }
  }

  lemma {:induction false} RunConcat(p: Pending, a: seq<Event>, b: seq<Event>)
    ensures Run(p, a + b) == Run(Run(p, a), b)
  {
    hide Apply;
    if b == [] {
      assert a + b == a;
    } else {
      var n := |b| - 1;
      RunConcat(p, a, b[..n]);
      assert (a + b)[..|a| + n] == a + b[..n];
    }
  }

  lemma RunOne(p: Pending, e: Event)
    ensures Run(p, [e]) == Apply(p, e)
  {
    assert [e][..0] == [];
  }

  lemma {:induction false} NextIdConcat(id: int, a: seq<Event>, b: seq<Event>)
    ensures NextId(id, a + b) == NextId(NextId(id, a), b)
    decreases a
  {
    if a == [] {
      assert a + b == b;
    } else {
      assert (a + b)[1..] == a[1..] + b;
      NextIdConcat(if a[0].New? then id + 1 else id, a[1..], b);
    }
  }

  lemma SweptSnoc(p: Pending, id: int, script: nat -> seq<Op>, now: nat, rounds: seq<Round>, r: Round)
    requires Swept(p, id, script, now, rounds)
    requires var log := AllEvents(rounds, now); Served(Run(p, log), NextId(id, log), script(|rounds|), now, r)
    ensures Swept(p, id, script, now, rounds + [r])
    ensures AllEvents(rounds + [r], now) == AllEvents(rounds, now) + Events(r, now)
    ensures Run(p, AllEvents(rounds + [r], now)) == Run(Run(p, AllEvents(rounds, now)), Events(r, now))
    ensures NextId(id, AllEvents(rounds + [r], now)) == NextId(NextId(id, AllEvents(rounds, now)), Events(r, now))
  {
    hide Served, Run, NextId, Events;
    RunConcat(p, AllEvents(rounds, now), Events(r, now));
    NextIdConcat(id, AllEvents(rounds, now), Events(r, now));
    var all := rounds + [r];
    assert all[..|rounds|] == rounds;
    forall n: nat | n < |all| ensures ServedAt(p, id, script, now, all, n) {
      if n < |rounds| {
        assert all[..n] == rounds[..n];
        assert ServedAt(p, id, script, now, rounds, n);
      }
    }
  }

  /** No alarm but c has c's id. */
  ghost predicate Only(p: Pending, c: Call) { forall o, d | Has(p, o, d) && d.id == c.id :: d == c }

  /** That stays so while a callback runs, for ids are never given out again. */
  lemma {:induction false} OnlyStays(p: Pending, id: int, ops: seq<Op>, now: nat, done: seq<Event>, failed: bool,
                                      c: Call)
    requires Only(p, c) && c.id < id && Callback(p, id, ops, now, done, failed)
    ensures Only(Run(p, done), c)
    decreases ops
  {
    hide Only, Apply, Has, Leaves;
    if ops == [] || (!Leaves(p, ops[0]) && Fails(p, ops[0])) {
    } else if !Leaves(p, ops[0]) {
      OnlyStays(p, id, ops[1..], now, done, failed, c);
    } else {
      OnlyStep(p, id, ops[0], now, done[0], c);
      assert done == [done[0]] + done[1..];
      RunConcat(p, [done[0]], done[1..]);
      RunOne(p, done[0]);
      if !Fails(p, ops[0]) {
        NextIdOne(id, done);
        OnlyStays(Apply(p, done[0]), NextId(id, done[..1]), ops[1..], now, done[1..], failed, c);
      }
    }
  }

  lemma NextIdOne(id: int, done: seq<Event>)
    requires done != []
    ensures id <= NextId(id, done[..1]) == NextId(id, [done[0]]) <= id + 1
  {
    assert done[..1] == [done[0]];
  }

  lemma OnlyStep(p: Pending, id: int, op: Op, now: nat, e: Event, c: Call)
    requires Only(p, c) && c.id < id && Leaving(p, id, op, now, e)
    ensures Only(Apply(p, e), c)
  {
    hide Of, Has, Only;
    match e
    case New(o, d, _) =>
      OnlyOf(p, o, c);
      OnlySet(p, o, Of(p, o) + multiset{d}, c);
    case Drop(o, d) =>
      OnlyOf(p, o, c);
      OnlySet(p, o, Of(p, o) - multiset{d}, c);
    case DropAll(o) => OnlySet(p, o, multiset{}, c);
    case Swap(o, q) =>
      OnlyOf(p, o, c);
      OnlyOf(p, q, c);
      OnlySet(p, o, Of(p, q), c);
      OnlySet(p[o := Of(p, q)], q, Of(p, o), c);
    case Fire(_, _, _, _) =>
  }

  lemma OnlyOf(p: Pending, o: Obj, c: Call)
    requires Only(p, c)
    ensures forall d | d in Of(p, o) && d.id == c.id :: d == c
  {
    forall d | d in Of(p, o) && d.id == c.id ensures d == c {
      assert Has(p, o, d);
    }
  }

  lemma OnlySet(p: Pending, o: Obj, m: multiset<Call>, c: Call)
    requires Only(p, c) && forall d | d in m && d.id == c.id :: d == c
    ensures Only(p[o := m], c)
  {
    var p' := p[o := m];
    forall x, d | Has(p', x, d) && d.id == c.id ensures d == c {
      if x != o { assert Has(p, x, d); }
    }
  }

  lemma OnlyAgain(p: Pending, o: Obj, c: Call, tick: nat, now: nat, id: int)
    requires Ids(p, id) && Has(p, o, c)
    ensures c.id < id && (c.reload > 0 ==> Only(Apply(p, Fire(o, c, tick, now)), Again(c, now)))
  {
    var again := Again(c, now);
    var p' := Apply(p, Fire(o, c, tick, now));
    if c.reload > 0 {
      IdGone(p, o, c, id);
      forall x, d | Has(p', x, d) && d.id == again.id ensures d == again {
        assert d == again || Has(p[o := Of(p, o) - multiset{c}], x, d);
      }
    }
  }

  // ---- the driver's scheduler ---------------------------------------------

  datatype Result<T> = Ok(value: T) | TooMany

  class Scheduler {
    const slots: array<seq<Obj>>          // call_outs[]
    var alarms: Lists                     // ob->call_outs
    var last: nat
    var alarmTime: nat
    var numCall: int
    var callId: int

    ghost var known: seq<Obj>
    ghost const base: Pending
    ghost var log: seq<Event>

    /** An object is in exactly one slot iff it has alarms, and in the right place. */
    ghost predicate Wheel()
      reads this, slots
    {
      slots.Length == NUM_SLOTS && Placed(slots[..], Heads(alarms))
    }

    /** Lists are sorted and short enough, and num_call counts all alarms. */
    ghost predicate Counted()
      reads this
    {
      ListsOk(alarms) && Knows(known, alarms) && numCall == Sum(known, alarms, Len)
    }

    /** Nothing is pending before the next tick to be swept. */
    ghost predicate Timely()
      reads this
    {
      After(alarms, last) && last <= alarmTime + 1
    }

    /** The contents are what the log says, and every alarm has an id of its own. */
    ghost predicate Logged()
      reads this
    {
      Bags(alarms) == Run(base, log) && LegalRun(base, log) && Clocked(log, alarmTime) && Ids(Bags(alarms), callId)
    }

    /** A new alarm is given the next id. */
    ghost predicate Named(e: Event)
      reads this
    {
      e.New? ==> Ids(Bags(alarms), e.c.id) && e.c.id < callId
    }

    ghost predicate Valid()
      reads this, slots
    {
      Wheel() && Counted() && Timely() && Logged()
    }

    /** How many alarms are due by the current time. */
    ghost function Due(): nat
      reads this
    {
      Sum(known, alarms, DueBy(alarmTime))
    }

    /** init_call_out */
    constructor ()
      ensures Valid() && alarms == map[] && log == [] && last == 0 && alarmTime == 0 && numCall == 0 && fresh(slots)
    {
      slots := new seq<Obj>[NUM_SLOTS](_ => []);
      alarms, last, alarmTime, numCall, callId := map[], 0, 0, 0, 1;
      known, base, log := [], map[], [];
      new;
      assert forall s | 0 <= s < NUM_SLOTS :: SlotOk(slots[..][s], map[], s);
    }

    /** Replaces one object's list; e says what that means. */
    method SetList(o: Obj, l: seq<Call>, ghost e: Event)
      requires ListsOk(alarms) && Knows(known, alarms) && Timely() && Logged()
      requires Sorted(l) && |l| <= MAX_CALL_OUT && (forall i | 0 <= i < |l| :: last <= l[i].when)
      requires numCall + |Get(alarms, o)| == Sum(known, alarms, Len) + |l|
      requires Legal(Bags(alarms), e) && Apply(Bags(alarms), e) == Bags(alarms)[o := multiset(l)]
      requires Named(e) && (HasTime(e) ==> e.now == alarmTime)
      modifies this`alarms, this`known, this`log
      ensures alarms == old(alarms)[o := l] && log == old(log) + [e]
      ensures Counted() && Timely() && Logged()
      ensures Due() + DueIn(old(Get(alarms, o)), alarmTime) == old(Due()) + DueIn(l, alarmTime)
    {
      hide Sum, Bags, Apply, Legal, LegalRun, Run, DueIn, DueBy, Sorted, Len, Clocked, Ids;
      NoneDue(alarmTime);
      if o !in known {
        SumKnow(known, alarms, Len, o);
        SumKnow(known, alarms, DueBy(alarmTime), o);
        known := known + [o];
      }
      LenIs(Get(alarms, o));
      LenIs(l);
      DueIs(Get(alarms, o), alarmTime);
      DueIs(l, alarmTime);
      SumSet(known, alarms, Len, o, l);
      SumSet(known, alarms, DueBy(alarmTime), o, l);
      BagsSet(alarms, o, l);
      IdsApply(Bags(alarms), e, callId);
      RunSnoc(base, log, e);
      ClockSnoc(log, e, alarmTime);
      alarms := alarms[o := l];
      log := log + [e];
    }

    /** Takes o out of slot s: the scans that end in "Error in callout list" or
        "Corrupt callout list" when the object is not there. */
    method Unlink(o: Obj, s: nat, ghost heads: map<Obj, nat>)
      requires slots.Length == NUM_SLOTS && Placed(slots[..], heads) && o in heads && s == Slot(heads[o])
      modifies slots
      ensures Placed(slots[..], heads - {o})
    {
      hide SlotOk, Slot;
      var i := 0;
      while i < |slots[s]| && slots[s][i] != o
        invariant 0 <= i <= |slots[s]| && o !in slots[s][..i]
      {
        i := i + 1;
      }
      assert slots[..][s] == slots[s] && slots[s][..|slots[s]|] == slots[s];
      Unlinked(slots[..], heads, s, i);
      slots[s] := Without(slots[s], i);
      assert slots[..] == old(slots[..])[s := slots[s]];
    }

    /** Hangs o, whose earliest alarm is due at when, into its slot. */
    method Link(o: Obj, when: nat, ghost heads: map<Obj, nat>)
      requires slots.Length == NUM_SLOTS && Placed(slots[..], heads) && o !in heads
      requires forall x | x in heads :: x in alarms && alarms[x] != [] && alarms[x][0].when == heads[x]
      modifies slots
      ensures Placed(slots[..], heads[o := when])
    {
      hide Slot;
      var s := Slot(when);
      assert slots[..][s] == slots[s] && SlotOk(slots[s], heads, s);
      var i := 0;
      while i < |slots[s]| && alarms[slots[s][i]][0].when < when
        invariant 0 <= i <= |slots[s]|
        invariant forall k | 0 <= k < i :: heads[slots[s][k]] < when
      {
        i := i + 1;
      }
      Linked(slots[..], heads, o, when, i);
      slots[s] := With(slots[s], o, i);
      assert slots[..] == old(slots[..])[s := slots[s]];
    }
  
    /** Where an alarm due at `when` goes in o's list. */
    method FindPlace(o: Obj, when: nat) returns (i: nat)
      requires ListsOk(alarms)
      ensures Place(Get(alarms, o), when, i)
    {
      var l := Get(alarms, o);
      i := 0;
      while i < |l| && l[i].when < when
        invariant 0 <= i <= |l| && forall k | 0 <= k < i :: l[k].when < when
      {
        i := i + 1;
      }
    }

    /** After o's list has changed: takes o from the slot of its former earliest alarm, if
        it had any, and hangs it into the slot of its present one, if it has any. */
    method Rehang(o: Obj, had: bool, former: nat, ghost was: Lists)
      requires slots.Length == NUM_SLOTS && Placed(slots[..], Heads(was))
      requires o in alarms && alarms == was[o := alarms[o]]
      requires had <==> Get(was, o) != []
      requires had ==> former == Get(was, o)[0].when
      modifies slots
      ensures Wheel()
    {
      hide Placed, Slot;
      ghost var heads := Heads(was);
      HeadsSet(was, o, alarms[o]);
      if had {
        Unlink(o, Slot(former), heads);
      } else {
        assert heads - {o} == heads;
      }
      if alarms[o] != [] {
        Link(o, alarms[o][0].when, heads - {o});
        assert (heads - {o})[o := alarms[o][0].when] == heads[o := alarms[o][0].when];
      }
    }

    method PutCall(o: Obj, c: Call, i: nat, ghost e: Event)
      requires ListsOk(alarms) && Knows(known, alarms) && Timely() && Logged() && Place(Get(alarms, o), c.when, i)
      requires numCall == Sum(known, alarms, Len) + 1 && |Get(alarms, o)| < MAX_CALL_OUT && last <= c.when
      requires Legal(Bags(alarms), e) && Apply(Bags(alarms), e) == Bags(alarms)[o := Of(Bags(alarms), o) + multiset{c}]
      requires Named(e) && (HasTime(e) ==> e.now == alarmTime)
      modifies this`alarms, this`known, this`log
      ensures alarms == old(alarms)[o := With(old(Get(alarms, o)), c, i)] && log == old(log) + [e]
      ensures Counted() && Timely() && Logged()
      ensures Due() == old(Due()) + if c.when <= alarmTime then 1 else 0
    {
      hide Sum, Legal, Apply, LegalRun, Run, Sorted, Bags, DueIn, ListsOk, After, Knows, Ids;
      ghost var l := Get(alarms, o);
      ListOk(alarms, o, last);
      WithSorted(l, c, i);
      WithBag(l, c, i);
      BagsOf(alarms, o);
      DueWith(l, c, i, alarmTime);
      SetList(o, With(Get(alarms, o), c, i), e);
    }

    /** insert_call_out */
    method InsertCall(o: Obj, c: Call, ghost e: Event)
      requires Wheel() && ListsOk(alarms) && Knows(known, alarms) && Timely() && Logged()
      requires numCall == Sum(known, alarms, Len) + 1 && |Get(alarms, o)| < MAX_CALL_OUT && last <= c.when
      requires Legal(Bags(alarms), e) && Apply(Bags(alarms), e) == Bags(alarms)[o := Of(Bags(alarms), o) + multiset{c}]
      requires Named(e) && (HasTime(e) ==> e.now == alarmTime)
      modifies this`alarms, this`known, this`log, slots
      ensures Valid() && log == old(log) + [e] && c in Get(alarms, o)
      ensures alarms == old(alarms)[o := Get(alarms, o)] && PutIn(old(Get(alarms, o)), c, Get(alarms, o))
      ensures Due() == old(Due()) + if c.when <= alarmTime then 1 else 0
    {
      hide Placed, Counted, Timely, Logged, Due, Bags, Legal, Apply, Sum, Ids;
      ghost var was, l := alarms, Get(alarms, o);
      var i := FindPlace(o, c.when);
      assert Wheel() && ListsOk(alarms) && Knows(known, alarms);
      PutCall(o, c, i, e);
      assert alarms[o][i] == c;
      PutAt(l, c, i);
      if i == 0 {
        var rest := alarms[o][1..];
        assert rest == l;
        Rehang(o, rest != [], if rest != [] then rest[0].when else 0, was);
      } else {
        HeadsSet(was, o, alarms[o]);
        assert Heads(alarms) == Heads(was);
      }
    }
  
    /** new_call_out.  A delay of at least one tick puts the alarm after every tick that
        can still be swept, so "Error in callout!" is never reached. */
    method NewCallOut(o: Obj, delay: int, reload: int) returns (r: Result<int>)
      requires Valid()
      modifies this`alarms, this`numCall, this`callId, this`known, this`log, slots
      ensures Valid() && Due() <= old(Due())
      ensures r.Ok? <==> |old(Get(alarms, o))| < MAX_CALL_OUT
      ensures r.Ok? ==>
                && alarms == old(alarms)[o := Get(alarms, o)]
                && PutIn(old(Get(alarms, o)), Call(r.value, alarmTime + (if delay <= 0 then 1 else delay),
                                                   if reload <= 0 then 0 else reload), Get(alarms, o))
      ensures r.Ok? ==>
                && r.value == old(callId) && callId == old(callId) + 1
                && Call(r.value, alarmTime + (if delay <= 0 then 1 else delay),
                        if reload <= 0 then 0 else reload) in Get(alarms, o)
                && log == old(log) + [New(o, Call(r.value, alarmTime + (if delay <= 0 then 1 else delay),
                                                  if reload <= 0 then 0 else reload), alarmTime)]
      ensures r.TooMany? ==> log == old(log) + [DropAll(o)] && callId == old(callId)
    {
      hide Placed, Sum, LegalRun, Run, Bags, Heads, ListsOk, After, Knows, Clocked, Legal, Apply, Ids;
      var d := if delay <= 0 then 1 else delay;
      var rl := if reload <= 0 then 0 else reload;
      if |Get(alarms, o)| >= MAX_CALL_OUT {
        DeleteAllCalls(o);
        return TooMany;
      }
      numCall := numCall + 1;
      var c := Call(callId, alarmTime + d, rl);
      assert last <= c.when;
      IdsMore(Bags(alarms), callId, callId + 1);
      callId := callId + 1;
      Adding(alarms, o, c, alarmTime);
      InsertCall(o, c, New(o, c, alarmTime));
      return Ok(c.id);
    }

    method TakeCall(o: Obj, i: nat, ghost e: Event)
      requires ListsOk(alarms) && Knows(known, alarms) && Timely() && Logged() && i < |Get(alarms, o)|
      requires numCall + 1 == Sum(known, alarms, Len)
      requires Legal(Bags(alarms), e) && Named(e) && (HasTime(e) ==> e.now == alarmTime)
      requires Apply(Bags(alarms), e) == Bags(alarms)[o := Of(Bags(alarms), o) - multiset{Get(alarms, o)[i]}]
      modifies this`alarms, this`known, this`log
      ensures alarms == old(alarms)[o := Without(old(Get(alarms, o)), i)] && log == old(log) + [e]
      ensures Counted() && Timely() && Logged()
      ensures Due() + (if old(Get(alarms, o))[i].when <= alarmTime then 1 else 0) == old(Due())
    {
      hide Sum, Legal, Apply, LegalRun, Run, Sorted, Bags, DueIn, ListsOk, After, Knows, Ids;
      ghost var l := Get(alarms, o);
      TakenOk(alarms, o, i, last, alarmTime);
      SetList(o, Without(Get(alarms, o), i), e);
    }

    /** delete_call */
    method DeleteCall(o: Obj, id: int)
      requires Valid()
      modifies this`alarms, this`numCall, this`known, this`log, slots
      ensures Valid() && Due() <= old(Due())
      ensures (forall c | c in old(Get(alarms, o)) :: c.id != id) ==> alarms == old(alarms) && log == old(log)
      ensures (exists c | c in old(Get(alarms, o)) :: c.id == id) ==>
                exists c | c in old(Get(alarms, o)) && c.id == id :: log == old(log) + [Drop(o, c)]
      ensures (exists c | c in old(Get(alarms, o)) :: c.id == id) ==>
                exists i | 0 <= i < |old(Get(alarms, o))| && old(Get(alarms, o))[i].id == id ::
                  alarms == old(alarms)[o := Without(old(Get(alarms, o)), i)]
    {
      hide Placed, Counted, Logged, Due, Bags, Sum, Ids;
      var l := Get(alarms, o);
      var i := 0;
      while i < |l| && l[i].id != id
        invariant 0 <= i <= |l| && forall k | 0 <= k < i :: l[k].id != id
      {
        i := i + 1;
      }
      if i == |l| { return; }
      var c := l[i];
      assert c in l;
      Dropping(alarms, o, c);
      assert Counted() && Logged();
      DropCall(o, i, l);
    }

    /** Unlinking alarm i of o and freeing it. */
    method DropCall(o: Obj, i: nat, l: seq<Call>)
      requires Valid() && l == Get(alarms, o) && i < |l|
      requires Legal(Bags(alarms), Drop(o, l[i]))
      requires Apply(Bags(alarms), Drop(o, l[i])) == Bags(alarms)[o := Of(Bags(alarms), o) - multiset{l[i]}]
      modifies this`alarms, this`numCall, this`known, this`log, slots
      ensures Valid() && log == old(log) + [Drop(o, l[i])]
      ensures alarms == old(alarms)[o := Without(l, i)]
      ensures Due() + (if l[i].when <= alarmTime then 1 else 0) == old(Due())
    {
      hide Placed, Bags, Sum, Legal, Apply, ListsOk, Knows, After, Run, LegalRun, Ids;
      ghost var was := alarms;
      numCall := numCall - 1;
      TakeCall(o, i, Drop(o, l[i]));
      if i == 0 {
        Rehang(o, true, l[0].when, was);
      } else {
        HeadsSet(was, o, alarms[o]);
        assert Heads(alarms) == Heads(was);
      }
    }

    /** delete_all_calls */
    method DeleteAllCalls(o: Obj)
      requires Valid()
      modifies this`alarms, this`numCall, this`known, this`log, slots
      ensures Valid() && Due() <= old(Due())
      ensures if old(Get(alarms, o)) == [] then log == old(log) && alarms == old(alarms)
              else log == old(log) + [DropAll(o)] && alarms == old(alarms)[o := []]
    {
      hide Placed, Bags, Sum, Legal, Apply, ListsOk, Knows, After, Run, LegalRun, Sorted, DueIn, Clocked, Heads, Ids;
      var l := Get(alarms, o);
      if l == [] { return; }
      ghost var was := alarms;
      for i := 0 to |l|
        invariant numCall == old(numCall) - i
        modifies this`numCall
      {
        numCall := numCall - 1;
      }
      AllDropped(alarms, o, alarmTime);
      SetList(o, [], DropAll(o));
      assert slots[..] == old(slots[..]);
      Rehang(o, true, l[0].when, was);
    }
  
    /** Exchanging the lists of two objects, without touching the slots. */
    method SwapLists(o: Obj, p: Obj)
      requires Counted() && Timely() && Logged() && o != p
      modifies this`alarms, this`known, this`log
      ensures alarms == old(alarms)[o := old(Get(alarms, p))][p := old(Get(alarms, o))]
                && log == old(log) + [Swap(o, p)]
      ensures Counted() && Timely() && Logged() && Due() == old(Due())
    {
      hide Sum, Bags, Apply, Legal, LegalRun, Run, DueIn, DueBy, Sorted, Len, Clocked, Ids;
      NoneDue(alarmTime);
      if o !in known {
        SumKnow(known, alarms, Len, o);
        SumKnow(known, alarms, DueBy(alarmTime), o);
        known := known + [o];
      }
      if p !in known {
        SumKnow(known, alarms, Len, p);
        SumKnow(known, alarms, DueBy(alarmTime), p);
        known := known + [p];
      }
      SumSwap(known, alarms, Len, o, p);
      SumSwap(known, alarms, DueBy(alarmTime), o, p);
      Swapped(alarms, o, p, last);
      IdsApply(Bags(alarms), Swap(o, p), callId);
      RunSnoc(base, log, Swap(o, p));
      ClockSnoc(log, Swap(o, p), alarmTime);
      var lo, lp := Get(alarms, o), Get(alarms, p);
      alarms := alarms[o := lp][p := lo];
      log := log + [Swap(o, p)];
    }

    method UnlinkIf(o: Obj, l: seq<Call>, ghost heads: map<Obj, nat>)
      requires slots.Length == NUM_SLOTS && Placed(slots[..], heads)
      requires if l == [] then o !in heads else o in heads && heads[o] == l[0].when
      modifies slots
      ensures Placed(slots[..], heads - {o})
    {
      if l != [] { Unlink(o, Slot(l[0].when), heads); } else { assert heads - {o} == heads; }
    }

    method LinkIf(o: Obj, l: seq<Call>, ghost heads: map<Obj, nat>)
      requires slots.Length == NUM_SLOTS && Placed(slots[..], heads) && o !in heads
      requires forall x | x in heads :: x in alarms && alarms[x] != [] && alarms[x][0].when == heads[x]
      modifies slots
      ensures Placed(slots[..], if l == [] then heads else heads[o := l[0].when])
    {
      if l != [] { Link(o, l[0].when, heads); }
    }

    /** call_out_swap_objects; its only caller passes an object and its new clone. */
    method SwapObjects(o: Obj, p: Obj)
      requires Valid() && o != p
      modifies this`alarms, this`known, this`log, slots
      ensures Valid() && log == old(log) + [Swap(o, p)] && Due() == old(Due())
      ensures alarms == old(alarms)[o := old(Get(alarms, p))][p := old(Get(alarms, o))]
    {
      hide Placed, Slot, Counted, Timely, Logged, Due, Heads;
      assert Counted() && Timely() && Logged();
      HeadOf(alarms, o);
      HeadOf(alarms, p);
      var lo, lp := Get(alarms, o), Get(alarms, p);
      ghost var h := Heads(alarms);
      ghost var h1, h2 := h - {o}, h - {o} - {p};
      UnlinkIf(o, lo, h);
      UnlinkIf(p, lp, h1);
      ghost var was := alarms;
      SwapLists(o, p);
      ghost var h3 := if lp == [] then h2 else h2[o := lp[0].when];
      SwapHeads(was, o, p, h2, h3);
      LinkIf(o, lp, h2);
      LinkIf(p, lo, h3);
    }
  
    // ---- the sweep ----------------------------------------------------------

    /** A repeating alarm put back among the others of its object. */
    method PutBack(rest: seq<Call>, c: Call) returns (l: seq<Call>, ghost i: nat)
      ensures Place(rest, Again(c, alarmTime).when, i) && l == With(rest, Again(c, alarmTime), i)
      ensures PutIn(rest, Again(c, alarmTime), l)
    {
      var c' := c.(when := alarmTime + c.reload);
      var k := 0;
      while k < |rest| && rest[k].when < c'.when
        invariant 0 <= k <= |rest| && forall j | 0 <= j < k :: rest[j].when < c'.when
      {
        k := k + 1;
      }
      PlaceIs(rest, c'.when, k);
      PutAt(rest, c', k);
      return With(rest, c', k), k;
    }

    /** The head of the current slot is due: take its first alarm out, put it back later
        if it repeats, and hang the object up again if it has alarms left. */
    method FireHead() returns (o: Obj, c: Call)
      requires Valid() && last <= alarmTime && slots[Slot(last)] != []
      requires HeadDue(slots[Slot(last)], alarms, last)
      modifies this`alarms, this`numCall, this`known, this`log, slots
      ensures Valid() && log == old(log) + [Fire(o, c, last, alarmTime)]
      ensures o == old(slots[Slot(last)])[0] && old(Get(alarms, o)) != [] && c == old(Get(alarms, o))[0]
      ensures alarms == old(alarms)[o := Get(alarms, o)]
      ensures if c.reload > 0 then PutIn(old(Get(alarms, o))[1..], Again(c, alarmTime), Get(alarms, o))
              else Get(alarms, o) == old(Get(alarms, o))[1..]
      ensures Due() + 1 == old(Due())
    {
      hide Placed, Bags, Sum, Legal, Apply, ListsOk, Knows, After, Run, LegalRun, Clocked, Sorted, DueIn, Place, Heads;
      hide Ids, PutIn, With;
      ghost var was := alarms;
      o := slots[Slot(last)][0];
      HeadIsDue(slots[..], alarms, last);
      c := alarms[o][0];
      var l := alarms[o][1..];
      if c.reload > 0 {
        ghost var i;
        l, i := PutBack(l, c);
        Firing(alarms, o, last, alarmTime, l, i);
      } else {
        numCall := numCall - 1;
        Firing(alarms, o, last, alarmTime, l, 0);
      }
      SetList(o, l, Fire(o, c, last, alarmTime));
      assert slots[..] == old(slots[..]);
      Rehang(o, true, c.when, was);
    }

    /** The log has been extended by done, and the alarms and ids are what that makes of them. */
    ghost predicate Did(p: Pending, id: int, was: seq<Event>, done: seq<Event>)
      reads this
    {
      log == was + done && Bags(alarms) == Run(p, done) && callId == NextId(id, done)
    }

    lemma Now()
      requires Valid()
      ensures Bags(alarms) == Run(base, log) && Ids(Bags(alarms), callId)
    {
      hide Wheel, Counted, Timely, Run, Bags;
    }

    lemma DidNothing()
      ensures Did(Bags(alarms), callId, log, [])
    {
      assert log + [] == log;
    }

    lemma DidOne(p: Pending, id: int, was: seq<Event>, e: Event)
      requires Valid() && p == Run(base, was) && log == was + [e] && callId == if e.New? then id + 1 else id
      ensures Did(p, id, was, [e])
    {
      hide Run, Apply, Bags, Valid;
      Now();
      RunSnoc(base, was, e);
      RunOne(p, e);
      assert [e][1..] == [] && NextId(callId, []) == callId;
    }

    lemma DidMore(p: Pending, id: int, was: seq<Event>, first: seq<Event>, rest: seq<Event>)
      requires Did(Run(p, first), NextId(id, first), was + first, rest)
      ensures Did(p, id, was, first + rest)
    {
      hide Run, NextId, Bags;
      RunConcat(p, first, rest);
      NextIdConcat(id, first, rest);
      assert was + first + rest == was + (first + rest);
    }

    /** One operation of a callback. */
    method RunOp(op: Op) returns (failed: bool, ghost done: seq<Event>)
      requires Valid()
      modifies this`alarms, this`numCall, this`callId, this`known, this`log, slots
      ensures Valid() && Due() <= old(Due())
      ensures Did(old(Bags(alarms)), old(callId), old(log), done)
      ensures Left(old(Bags(alarms)), old(callId), op, alarmTime, done, failed)
    {
      hide Valid, Due, Bags, Did;
      DidNothing();
      match op
      case Create(o, delay, reload) => failed, done := RunCreate(o, delay, reload);
      case Remove(o, i) => failed, done := RunRemove(o, i);
      case RemoveAll(o) => failed, done := RunRemoveAll(o);
      case Exchange(o, q) => failed, done := RunExchange(o, q);
      case Raise => return true, [];
    }

    method RunCreate(o: Obj, delay: int, reload: int) returns (failed: bool, ghost done: seq<Event>)
      requires Valid()
      modifies this`alarms, this`numCall, this`callId, this`known, this`log, slots
      ensures Valid() && Due() <= old(Due())
      ensures Did(old(Bags(alarms)), old(callId), old(log), done)
      ensures Left(old(Bags(alarms)), old(callId), Create(o, delay, reload), alarmTime, done, failed)
    {
      hide Valid, Due, Bags, Did, Of, Get, Run;
      ghost var p, id, was := Bags(alarms), callId, log;
      Now();
      BagsOf(alarms, o);
      var r := NewCallOut(o, delay, reload);
      DidOne(p, id, was, log[|was|]);
      return r.TooMany?, [log[|was|]];
    }

    method RunRemoveAll(o: Obj) returns (failed: bool, ghost done: seq<Event>)
      requires Valid()
      modifies this`alarms, this`numCall, this`known, this`log, slots
      ensures Valid() && Due() <= old(Due())
      ensures Did(old(Bags(alarms)), old(callId), old(log), done)
      ensures Left(old(Bags(alarms)), old(callId), RemoveAll(o), alarmTime, done, failed)
    {
      hide Valid, Due, Bags, Did, Of, Get, Run;
      ghost var p, id, was := Bags(alarms), callId, log;
      Now();
      BagsOf(alarms, o);
      DeleteAllCalls(o);
      failed, done := false, [];
      if log == was {
        DidNothing();
      } else {
        DidOne(p, id, was, DropAll(o));
        done := [DropAll(o)];
      }
    }

    method RunExchange(o: Obj, q: Obj) returns (failed: bool, ghost done: seq<Event>)
      requires Valid()
      modifies this`alarms, this`known, this`log, slots
      ensures Valid() && Due() <= old(Due())
      ensures Did(old(Bags(alarms)), old(callId), old(log), done)
      ensures Left(old(Bags(alarms)), old(callId), Exchange(o, q), alarmTime, done, failed)
    {
      hide Valid, Due, Bags, Did, Of, Get, Run;
      ghost var p, id, was := Bags(alarms), callId, log;
      Now();
      if o == q {
        DidNothing();
        return false, [];
      }
      SwapObjects(o, q);
      DidOne(p, id, was, Swap(o, q));
      return false, [Swap(o, q)];
    }

    /** delete_call, in terms of what is pending. */
    method RemoveCall(o: Obj, i: int) returns (ghost done: seq<Event>)
      requires Valid()
      modifies this`alarms, this`numCall, this`known, this`log, slots
      ensures Valid() && Due() <= old(Due())
      ensures Did(old(Bags(alarms)), old(callId), old(log), done)
      ensures done == [] <==> forall c | Has(old(Bags(alarms)), o, c) :: c.id != i
      ensures done != [] ==> |done| == 1 && done[0].Drop? && done[0].o == o && done[0].c.id == i
      ensures done != [] ==> Has(old(Bags(alarms)), o, done[0].c)
    {
      hide Valid, Due, Bags, Did, Of, Get, Run;
      ghost var p, id, was := Bags(alarms), callId, log;
      Now();
      BagsOf(alarms, o);
      assert forall c :: Has(p, o, c) <==> c in Get(alarms, o);
      DeleteCall(o, i);
      done := [];
      if log == was {
        DidNothing();
      } else {
        DidOne(p, id, was, log[|was|]);
        done := [log[|was|]];
      }
    }

    method RunRemove(o: Obj, i: int) returns (failed: bool, ghost done: seq<Event>)
      requires Valid()
      modifies this`alarms, this`numCall, this`known, this`log, slots
      ensures Valid() && Due() <= old(Due())
      ensures Did(old(Bags(alarms)), old(callId), old(log), done)
      ensures Left(old(Bags(alarms)), old(callId), Remove(o, i), alarmTime, done, failed)
    {
      hide Valid, Due, Bags, Did, Has;
      failed := false;
      done := RemoveCall(o, i);
    }

    lemma DidIs(p: Pending, id: int, was: seq<Event>, done: seq<Event>)
      requires Did(p, id, was, done)
      ensures log == was + done && Bags(alarms) == Run(p, done) && callId == NextId(id, done)
    {
    }

    lemma WasLegal(was: seq<Event>, e: Event)
      requires Valid() && log == was + [e]
      ensures Legal(Run(base, was), e)
    {
      hide Wheel, Counted, Timely, Legal, Run, Bags, Ids;
      assert log[..|was|] == was;
    }

    /** A callback runs scheduler operations until it is done or raises an error. */
    method RunCallback(ops: seq<Op>) returns (failed: bool, ghost done: seq<Event>)
      requires Valid()
      modifies this`alarms, this`numCall, this`callId, this`known, this`log, slots
      ensures Valid() && Due() <= old(Due())
      ensures Did(old(Bags(alarms)), old(callId), old(log), done)
      ensures Callback(old(Bags(alarms)), old(callId), ops, alarmTime, done, failed)
      decreases ops
    {
      hide Valid, Due, Bags, Left, Did, Run, NextId;
      ghost var p, id, was := Bags(alarms), callId, log;
      if ops == [] {
        DidNothing();
        return false, [];
      }
      hide Callback;
      ghost var first, rest;
      failed, first := RunOp(ops[0]);
      if failed {
        CallbackEnds(p, id, ops, alarmTime, first);
        return failed, first;
      }
      DidIs(p, id, was, first);
      failed, rest := RunCallback(ops[1..]);
      CallbackGoesOn(p, id, ops, alarmTime, first, rest, failed);
      DidMore(p, id, was, first, rest);
      done := first + rest;
    }

    /** An alarm whose callback has failed is turned off, if it is still there. */
    method TurnOff(o: Obj, c: Call, failed: bool) returns (ghost off: seq<Event>)
      requires Valid() && (c.reload > 0 ==> Only(Bags(alarms), Again(c, alarmTime)))
      modifies this`alarms, this`numCall, this`known, this`log, slots
      ensures Valid() && Due() <= old(Due())
      ensures Did(old(Bags(alarms)), old(callId), old(log), off)
      ensures var again := Again(c, alarmTime);
              off == if failed && c.reload > 0 && Has(old(Bags(alarms)), o, again) then [Drop(o, again)] else []
    {
      hide Valid, Due, Bags, Did, Has;
      DidNothing();
      if !failed || c.reload == 0 { return []; }
      off := RemoveCall(o, c.id);
    }

    /** Serving the alarm at the head of the current slot, which is due. */
    method Serve(ops: seq<Op>) returns (ghost r: Round)
      requires Valid() && last <= alarmTime && slots[Slot(last)] != []
      requires HeadDue(slots[Slot(last)], alarms, last)
      modifies this`alarms, this`numCall, this`callId, this`known, this`log, slots
      ensures Valid() && Due() < old(Due()) && r.tick == last
      ensures Did(old(Bags(alarms)), old(callId), old(log), Events(r, alarmTime))
      ensures Served(old(Bags(alarms)), old(callId), ops, alarmTime, r)
    {
      hide Valid, Due, Bags, Did, Callback, Apply, Run, Slot, HeadDue, Ids, Only, NextId;
      ghost var p, id, was := Bags(alarms), callId, log;
      Now();
      var o, c := FireHead();
      ghost var e := Fire(o, c, last, alarmTime);
      WasLegal(was, e);
      DidOne(p, id, was, e);
      DidIs(p, id, was, [e]);
      RunOne(p, e);
      OnlyAgain(p, o, c, last, alarmTime, id);
      ghost var p1, id1, again := Bags(alarms), callId, Again(c, alarmTime);
      var failed;
      ghost var done;
      failed, done := RunCallback(ops);
      if c.reload > 0 { OnlyStays(p1, id1, ops, alarmTime, done, failed, again); }
      DidIs(p1, id1, was + [e], done);
      DidMore(p, id, was, [e], done);
      DidIs(p, id, was, [e] + done);
      ghost var off := TurnOff(o, c, failed);
      DidMore(p, id, was, [e] + done, off);
      r := Round(o, c, last, done, failed, off);
    }

    /** How far a sweep has come. */
    ghost predicate Sweeping(p: Pending, id: int, was: seq<Event>, script: nat -> seq<Op>, rounds: seq<Round>)
      reads this
    {
      Swept(p, id, script, alarmTime, rounds) && Did(p, id, was, AllEvents(rounds, alarmTime))
    }

    lemma SweepStart(script: nat -> seq<Op>)
      ensures Sweeping(Bags(alarms), callId, log, script, [])
    {
      DidNothing();
    }

    lemma SweepMore(p: Pending, id: int, was: seq<Event>, script: nat -> seq<Op>, rounds: seq<Round>, r: Round)
      requires Swept(p, id, script, alarmTime, rounds)
      requires var log0 := AllEvents(rounds, alarmTime);
               && Served(Run(p, log0), NextId(id, log0), script(|rounds|), alarmTime, r)
               && Did(Run(p, log0), NextId(id, log0), was + log0, Events(r, alarmTime))
      ensures Sweeping(p, id, was, script, rounds + [r])
    {
      hide Swept, Served, Did, Run, NextId, Events, AllEvents;
      SweptSnoc(p, id, script, alarmTime, rounds, r);
      DidMore(p, id, was, AllEvents(rounds, alarmTime), Events(r, alarmTime));
    }

    lemma SweepIs(p: Pending, id: int, was: seq<Event>, script: nat -> seq<Op>, rounds: seq<Round>)
      requires Sweeping(p, id, was, script, rounds)
      ensures var log0 := AllEvents(rounds, alarmTime);
              && log == was + log0 && Bags(alarms) == Run(p, log0) && callId == NextId(id, log0)
      ensures Swept(p, id, script, alarmTime, rounds)
    {
    }

    /** All alarms due at one tick. */
    method ServeTick(script: nat -> seq<Op>, n0: nat, ghost p: Pending, ghost id: int, ghost was: seq<Event>,
                     ghost rounds0: seq<Round>)
      returns (n: nat, ghost rounds: seq<Round>)
      requires Valid() && last <= alarmTime && n0 == |rounds0| && Sweeping(p, id, was, script, rounds0)
      modifies this`alarms, this`numCall, this`callId, this`known, this`log, slots
      ensures Valid() && n == |rounds| && Sweeping(p, id, was, script, rounds)
      ensures slots[Slot(last)] == [] || !HeadDue(slots[Slot(last)], alarms, last)
    {
      hide Wheel, Counted, Timely, Logged, Due, Bags, Sweeping, Slot, HeadDue, Served, Did, AllEvents, Swept;
      hide Run, NextId;
      n, rounds := n0, rounds0;
      assert slots.Length == NUM_SLOTS by { ManySlots(); }
      while slots[Slot(last)] != [] && HeadDue(slots[Slot(last)], alarms, last)
        invariant Valid() && n == |rounds| && Sweeping(p, id, was, script, rounds)
        decreases Due()
      {
        SweepIs(p, id, was, script, rounds);
        ghost var r := Serve(script(n));
        SweepMore(p, id, was, script, rounds, r);
        rounds := rounds + [r];
        n := n + 1;
      }
    }

    lemma ManySlots()
      requires Valid()
      ensures slots.Length == NUM_SLOTS
    {
      hide Placed, Counted, Timely, Logged;
    }

    /** The loops of call_out.  Every alarm due by now is fired at its own tick and its
        callback run, whatever the callbacks do; they can only add alarms after the
        present time.  Nothing else happens. */
    method Sweep(script: nat -> seq<Op>) returns (ghost rounds: seq<Round>)
      requires Valid()
      modifies this`alarms, this`numCall, this`callId, this`known, this`log, this`last, slots
      ensures Valid() && last == alarmTime + 1
      ensures log == old(log) + AllEvents(rounds, alarmTime)
      ensures Swept(old(Bags(alarms)), old(callId), script, alarmTime, rounds)
      ensures AllFired(old(Bags(alarms)), AllEvents(rounds, alarmTime), alarmTime)
    {
      hide Valid, Sweeping, AllFired, Swept, AllEvents, Bags, Slot, HeadDue;
      ghost var p, id, was := Bags(alarms), callId, log;
      var n := 0;
      rounds := [];
      SweepStart(script);
      assert last <= alarmTime + 1 by { InTime(); }
      while last <= alarmTime
        invariant Valid() && last <= alarmTime + 1 && n == |rounds| && Sweeping(p, id, was, script, rounds)
        decreases alarmTime + 1 - last
      {
        n, rounds := ServeTick(script, n, p, id, was, rounds);
        NextTick(p, id, was, script, rounds);
      }
      SweepIs(p, id, was, script, rounds);
      assert NoneBefore(Bags(alarms), alarmTime + 1) by { NothingDue(); }
      NoneLeft(p, AllEvents(rounds, alarmTime), alarmTime);
    }

    lemma NothingDue()
      requires Valid()
      ensures NoneBefore(Bags(alarms), last)
    {
      hide Wheel, Counted, Logged, Bags;
      AfterBags(alarms, last);
    }

    method NextTick(ghost p: Pending, ghost id: int, ghost was: seq<Event>, script: nat -> seq<Op>,
                    ghost rounds: seq<Round>)
      requires Valid() && last <= alarmTime && Sweeping(p, id, was, script, rounds)
      requires slots[Slot(last)] == [] || !HeadDue(slots[Slot(last)], alarms, last)
      modifies this`last
      ensures Valid() && last == old(last) + 1 && Sweeping(p, id, was, script, rounds)
    {
      hide Placed, Bags, Sum, ListsOk, Knows, After, Run, LegalRun, Clocked, Heads, Slot, Ids;
      hide Swept, HeadDue, NextId, AllEvents;
      TickDone(slots[..], alarms, last);
      last := last + 1;
    }

    lemma InTime()
      requires Valid()
      ensures last <= alarmTime + 1
    {
      hide Wheel, Counted, Logged;
    }

    // ---- the time to sleep --------------------------------------------------

    /** next_call_out, after tv has been preset to 60 seconds.  It looks at the head of
        each slot of the next 60 seconds only. */
    method NextCallOut() returns (sec: nat, usec: nat)
      requires Valid() && alarmTime <= last
      ensures Wait(alarms, alarmTime, sec, usec)
    {
      hide Placed, Bags, Sum, Knows, Run, LegalRun, Clocked, Heads, Slot, Ids;
      sec, usec := 60, 0;
      var end := Slot(alarmTime + 60 * TIME_RES);
      var slot := Slot(last);
      ghost var t := last;
      while true
        invariant alarmTime <= t < alarmTime + 60 * TIME_RES && slot == Slot(t) && After(alarms, t)
        invariant sec == 60 && usec == 0
        decreases alarmTime + 60 * TIME_RES - t
      {
        if slots[slot] != [] {
          SlotHead(slots[..], alarms, slot);
          var when := alarms[slots[slot][0]][0].when;
          // Nothing is pending before `last`, so the case of an alarm already past is dead.
          assert alarmTime <= when;
          if when - alarmTime < TIME_RES * 60 {
            sec := (when - alarmTime) / TIME_RES;
            usec := (when - alarmTime) % TIME_RES * 1000000 / TIME_RES;
            SameSlot(t, when);
            EarliestIs(alarms, slots[slot][0], t);
            return;
          }
          NotDue(slots[slot], alarms, t);
        }
        TickDone(slots[..], alarms, t);
        t := t + 1;
        slot := NextSlot(slot, t);
        if slot == end {
          LastSlot(t, alarmTime + 60 * TIME_RES);
          break;
        }
        NotLast(t, alarmTime + 60 * TIME_RES);
      }
    }

    /** The backend loop sets the clock, which never runs backwards. */
    method SetTime(t: nat)
      requires Valid() && alarmTime <= t
      modifies this`alarmTime
      ensures Valid() && alarmTime == t
    {
      alarmTime := t;
    }

    /** call_out */
    method CallOut(script: nat -> seq<Op>, inhibit: bool) returns (sec: nat, usec: nat, ghost rounds: seq<Round>)
      requires Valid()
      modifies this`alarms, this`numCall, this`callId, this`known, this`log, this`last, slots
      ensures Valid() && log == old(log) + AllEvents(rounds, alarmTime)
      ensures Swept(old(Bags(alarms)), old(callId), script, alarmTime, rounds)
      ensures inhibit || old(last) >= alarmTime ==> rounds == [] && last == old(last)
      ensures !inhibit && old(last) < alarmTime ==> AllFired(old(Bags(alarms)), AllEvents(rounds, alarmTime), alarmTime)
      ensures !inhibit && old(last) < alarmTime ==> last == alarmTime + 1
      ensures inhibit ==> sec == 60 && usec == 0
      ensures !inhibit ==> Wait(alarms, alarmTime, sec, usec)
      // Due alarms are all gone afterwards, except that a call at the very tick `last`
      // returns at once and leaves the alarms due at that tick.
      ensures !inhibit ==> (After(alarms, alarmTime + 1) <==>
                            old(last) != alarmTime || old(After(alarms, alarmTime + 1)))
    {
      hide Wheel, Counted, Logged, Wait, After;
      sec, usec, rounds := 60, 0, [];
      if inhibit { return; }
      if last >= alarmTime {
        sec, usec := NextCallOut();
        return;
      }
      rounds := Sweep(script);
      sec, usec := NextCallOut();
    }
  }

  /** The exception does occur: an alarm set for the next tick after a sweep is still
      pending when that tick is served. */
  method LeftForTheNextTick(script: nat -> seq<Op>) returns (s: Scheduler)
    ensures s.Valid() && !After(s.alarms, s.alarmTime + 1)
  {
    hide Placed, Bags, Sum, ListsOk, Knows, Run, LegalRun, Clocked, Heads, Wait, Ids;
    s := new Scheduler();
    s.SetTime(1);
    var sec, usec, rounds := s.CallOut(script, false);
    s.DeleteAllCalls(0);
    var r := s.NewCallOut(0, 1, 0);
    s.SetTime(2);
    ghost var c :| c in s.alarms[0] && c.when == 2;
    sec, usec, rounds := s.CallOut(script, false);
  }

  // ---- whole runs ---------------------------------------------------------

  /** Once nothing is pending before t, a legal event at or after t keeps it so. */
  lemma NothingEarlier(p: Pending, e: Event, t: nat)
    requires NoneBefore(p, t) && Legal(p, e) && (HasTime(e) ==> t <= e.now)
    ensures NoneBefore(Apply(p, e), t)
  {
    hide NoneBefore, Of;
    match e
    case New(o, c, _) =>
      OfLater(p, o, t);
      SetLater(p, o, Of(p, o) + multiset{c}, t);
    case Drop(o, c) =>
      OfLater(p, o, t);
      SetLater(p, o, Of(p, o) - multiset{c}, t);
    case DropAll(o) => SetLater(p, o, multiset{}, t);
    case Swap(o, q) =>
      OfLater(p, o, t);
      OfLater(p, q, t);
      SetLater(p, o, Of(p, q), t);
      SetLater(p[o := Of(p, q)], q, Of(p, o), t);
    case Fire(o, c, _, now) =>
      OfLater(p, o, t);
      SetLater(p, o, Fired(Of(p, o), c, now), t);
  }

  lemma OfLater(p: Pending, o: Obj, t: nat)
    requires NoneBefore(p, t)
    ensures forall c | c in Of(p, o) :: t <= c.when
  {
  }

  lemma SetLater(p: Pending, o: Obj, m: multiset<Call>, t: nat)
    requires NoneBefore(p, t) && forall c | c in m :: t <= c.when
    ensures NoneBefore(p[o := m], t)
  {
  }

  lemma {:induction false} StaysLater(p: Pending, log: seq<Event>, t: nat, i: nat, j: nat)
    requires LegalRun(p, log) && i <= j <= |log| && NoneBefore(Run(p, log[..i]), t)
    requires forall k | i <= k < j && HasTime(log[k]) :: t <= log[k].now
    ensures NoneBefore(Run(p, log[..j]), t)
    decreases j
  {
    hide Run, Legal, NoneBefore, Apply, Ids;
    if i < j {
      StaysLater(p, log, t, i, j - 1);
      assert log[..j] == log[..j - 1] + [log[j - 1]];
      RunSnoc(p, log[..j - 1], log[j - 1]);
      NothingEarlier(Run(p, log[..j - 1]), log[j - 1], t);
    }
  }

  /** Alarms fire in the order of their due times, over any run of the scheduler. */
  lemma FiringOrder(p: Pending, log: seq<Event>, now: nat, i: nat, j: nat)
    requires LegalRun(p, log) && Clocked(log, now) && i < j < |log| && log[i].Fire? && log[j].Fire?
    ensures log[i].c.when == log[i].tick <= log[j].tick == log[j].c.when
  {
    var pi := Run(p, log[..i]);
    assert Legal(pi, log[i]) && Legal(Run(p, log[..j]), log[j]);
    StaysLater(p, log, log[i].tick, i, j);
  }

  /** Where the alarms of o are after e. */
  function Moved(o: Obj, e: Event): Obj {
    if e.Swap? && o == e.o then e.p else if e.Swap? && o == e.p then e.o else o
  }

  /** Where the swaps among the events i .. j-1 lead the alarms of o. */
  function Where(log: seq<Event>, i: nat, j: nat, o: Obj): Obj
    requires j <= |log|
  {
    if j <= i then o else Moved(Where(log, i, j - 1, o), log[j - 1])
  }

  predicate Fires(e: Event, o: Obj, c: Call) { e.Fire? && e.o == o && e.c == c }

  predicate Drops(e: Event, o: Obj, c: Call) { (e.Drop? && e.o == o && e.c == c) || (e.DropAll? && e.o == o) }

  /** Does e neither fire nor drop the alarm c of o? */
  predicate Spares(e: Event, o: Obj, c: Call) { !Fires(e, o, c) && !Drops(e, o, c) }

  lemma SparedStays(p: Pending, e: Event, o: Obj, c: Call)
    requires c in Of(p, o) && Spares(e, o, c)
    ensures c in Of(Apply(p, e), Moved(o, e))
  {
    hide Of, Fired;
    match e
    case New(x, d, _) => OfSet(p, x, Of(p, x) + multiset{d}, o);
    case Drop(x, d) => OfSet(p, x, Of(p, x) - multiset{d}, o);
    case DropAll(x) => OfSet(p, x, multiset{}, o);
    case Swap(x, y) =>
      OfSet(p, x, Of(p, y), o);
      OfSet(p, x, Of(p, y), x);
      OfSet(p[x := Of(p, y)], y, Of(p, x), Moved(o, e));
    case Fire(x, d, _, now) =>
      OfSet(p, x, Fired(Of(p, x), d, now), o);
      FiredOther(Of(p, x), d, c, now);
  }

  lemma OfSet(p: Pending, x: Obj, m: multiset<Call>, o: Obj)
    ensures Of(p[x := m], o) == if o == x then m else Of(p, o)
  {
  }

  lemma FiredOther(m: multiset<Call>, d: Call, c: Call, now: nat)
    ensures c in m && c != d ==> c in Fired(m, d, now)
  {
  }

  /** An alarm that is neither fired nor deleted stays pending, at the object to which the
      swaps have taken it. */
  lemma {:induction false} NeverLost(p: Pending, log: seq<Event>, o: Obj, c: Call, i: nat, j: nat)
    requires i <= j <= |log| && c in Of(Run(p, log[..i]), o)
    requires forall k | i <= k < j :: Spares(log[k], Where(log, i, k, o), c)
    ensures c in Of(Run(p, log[..j]), Where(log, i, j, o))
    decreases j
  {
    hide Run, Apply, Of, Spares, Moved, Ids;
    if i < j {
      NeverLost(p, log, o, c, i, j - 1);
      assert log[..j] == log[..j - 1] + [log[j - 1]];
      RunSnoc(p, log[..j - 1], log[j - 1]);
      SparedStays(Run(p, log[..j - 1]), log[j - 1], Where(log, i, j - 1, o), c);
    }
  }

  /** The alarm c of o is fired, or deleted, along the log, at the object at which it is then. */
  ghost predicate FiredIn(log: seq<Event>, o: Obj, c: Call) {
    exists k :: 0 <= k < |log| && Fires(log[k], Where(log, 0, k, o), c)
  }

  ghost predicate DroppedIn(log: seq<Event>, o: Obj, c: Call) {
    exists k :: 0 <= k < |log| && Drops(log[k], Where(log, 0, k, o), c)
  }

  /** Every alarm that was due has been fired, unless it has been deleted before.  (What is
      turned off after a failure has been put back for later, and was not due any more.) */
  ghost predicate AllFired(p: Pending, log: seq<Event>, now: nat) {
    forall o, c | Has(p, o, c) && c.when <= now && !DroppedIn(log, o, c) :: FiredIn(log, o, c)
  }

  /** When nothing due is left, all that was due has been fired or deleted. */
  lemma NoneLeft(p: Pending, log: seq<Event>, now: nat)
    requires NoneBefore(Run(p, log), now + 1)
    ensures AllFired(p, log, now)
  {
    hide Run, Where, FiredIn, DroppedIn;
    forall o, c | Has(p, o, c) && c.when <= now && !DroppedIn(log, o, c) ensures FiredIn(log, o, c) {
      if !FiredIn(log, o, c) { KeptToTheEnd(p, log, o, c); }
    }
  }

  lemma KeptToTheEnd(p: Pending, log: seq<Event>, o: Obj, c: Call)
    requires Has(p, o, c) && !FiredIn(log, o, c) && !DroppedIn(log, o, c)
    ensures c in Of(Run(p, log), Where(log, 0, |log|, o))
  {
    hide Run, Where, Spares;
    assert log[..0] == [] && log[..|log|] == log;
    RunNone(p);
    SparedAll(log, o, c);
    StillStart(log, o);
    NeverLost(p, log, o, c, 0, |log|);
  }

  lemma RunNone(p: Pending)
    ensures Run(p, []) == p
  {
  }

  lemma StillStart(log: seq<Event>, o: Obj)
    ensures Where(log, 0, 0, o) == o
  {
  }

  lemma SparedAll(log: seq<Event>, o: Obj, c: Call)
    requires !FiredIn(log, o, c) && !DroppedIn(log, o, c)
    ensures forall k | 0 <= k < |log| :: Spares(log[k], Where(log, 0, k, o), c)
  {
    hide Where, Fires, Drops;
  }
}
