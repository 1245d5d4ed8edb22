/** The shape of the alarm scheduler's data (src/call_out.c).

    Every object keeps its alarms in due-time order.  An object that has alarms hangs in
    the slot of its earliest due time modulo NUM_SLOTS, and the objects of a slot are in
    order of their earliest due times.
 */
module CallOutWheel {

  const NUM_SLOTS: nat := 0x4000
  const TIME_RES: nat := 10
  const MAX_CALL_OUT: nat := 128

  type Obj = nat

  datatype Call = Call(id: int, when: nat, reload: nat)

  function Slot(when: nat): (s: nat)
    ensures s < NUM_SLOTS
  {
    when % NUM_SLOTS
  }

  // ---- sorted lists of alarms ---------------------------------------------

  ghost predicate Sorted(l: seq<Call>) {
    forall i, j | 0 <= i < j < |l| :: l[i].when <= l[j].when
  }

  /** Where the search loops stop: in front of the first alarm not due earlier. */
  ghost predicate Place(l: seq<Call>, when: nat, i: nat) {
    i <= |l| && (forall k | 0 <= k < i :: l[k].when < when) && (i < |l| ==> when <= l[i].when)
  }

  /** The list with an element inserted, or taken out, at an index. */
  function With<T>(l: seq<T>, x: T, i: nat): (r: seq<T>)
    requires i <= |l|
    ensures |r| == |l| + 1 && r[i] == x
    ensures forall k | 0 <= k < i :: r[k] == l[k]
    ensures forall k | i < k < |r| :: r[k] == l[k - 1]
  {
    l[..i] + [x] + l[i..]
  }

  function Without<T>(l: seq<T>, i: nat): (r: seq<T>)
    requires i < |l|
    ensures |r| == |l| - 1
    ensures forall k | 0 <= k < i :: r[k] == l[k]
    ensures forall k | i <= k < |r| :: r[k] == l[k + 1]
  {
    l[..i] + l[i + 1..]
  }

  lemma WithBag<T>(l: seq<T>, x: T, i: nat)
    requires i <= |l|
    ensures multiset(With(l, x, i)) == multiset(l) + multiset{x}
  {
    assert l == l[..i] + l[i..];
  }

  lemma WithoutBag<T>(l: seq<T>, i: nat)
    requires i < |l|
    ensures multiset(l) == multiset(Without(l, i)) + multiset{l[i]}
  {
    assert l == l[..i] + [l[i]] + l[i + 1..];
  }

  lemma WithSorted(l: seq<Call>, c: Call, i: nat)
    requires Sorted(l) && Place(l, c.when, i)
    ensures Sorted(With(l, c, i))
  {
    hide With;
    if i < |l| { assert forall k | i <= k < |l| :: l[i].when <= l[k].when; }
  }

  lemma WithoutSorted(l: seq<Call>, i: nat)
    requires Sorted(l) && i < |l|
    ensures Sorted(Without(l, i))
  {
    hide Without;
  }

  // ---- objects in slots ---------------------------------------------------

  ghost predicate Ordered(l: seq<Obj>, heads: map<Obj, nat>)
    requires forall i | 0 <= i < |l| :: l[i] in heads
  {
    forall i, j | 0 <= i < j < |l| :: heads[l[i]] <= heads[l[j]]
  }

  /** The objects of slot s: due there, listed once, in order of due time. */
  ghost predicate SlotOk(l: seq<Obj>, heads: map<Obj, nat>, s: nat) {
    && (forall i | 0 <= i < |l| :: l[i] in heads && Slot(heads[l[i]]) == s)
    && (forall i, j | 0 <= i < j < |l| :: l[i] != l[j])
    && Ordered(l, heads)
  }

  /** Objects with their earliest due times are in exactly the right slots. */
  ghost predicate Placed(slots: seq<seq<Obj>>, heads: map<Obj, nat>) {
    && |slots| == NUM_SLOTS
    && (forall s | 0 <= s < NUM_SLOTS :: SlotOk(slots[s], heads, s))
    && (forall o | o in heads :: o in slots[Slot(heads[o])])
  }

  lemma SlotWithout(l: seq<Obj>, heads: map<Obj, nat>, s: nat, i: nat)
    requires SlotOk(l, heads, s) && i < |l|
    ensures SlotOk(Without(l, i), heads - {l[i]}, s)
    ensures forall x | x in l && x != l[i] :: x in Without(l, i)
  {
    hide Without;
    var l' := Without(l, i);
    forall x | x in l && x != l[i] ensures x in l' {
      var k :| 0 <= k < |l| && l[k] == x;
      assert l'[if k < i then k else k - 1] == x;
    }
  }

  lemma SlotOther(l: seq<Obj>, heads: map<Obj, nat>, s: nat, o: Obj)
    requires SlotOk(l, heads, s) && (o in heads ==> Slot(heads[o]) != s)
    ensures o !in l && SlotOk(l, heads - {o}, s)
  {
  }

  /** Unlinking an object from its slot. */
  lemma Unlinked(slots: seq<seq<Obj>>, heads: map<Obj, nat>, s: nat, i: nat)
    requires Placed(slots, heads) && s < NUM_SLOTS && i < |slots[s]|
    ensures Placed(slots[s := Without(slots[s], i)], heads - {slots[s][i]})
  {
    hide SlotOk, Without, Slot;
    var o := slots[s][i];
    SlotMember(slots[s], heads, s, i);
    SlotWithout(slots[s], heads, s, i);
    forall t | 0 <= t < NUM_SLOTS && t != s ensures SlotOk(slots[t], heads - {o}, t) {
      SlotOther(slots[t], heads, t, o);
    }
  }

  lemma SlotMember(l: seq<Obj>, heads: map<Obj, nat>, s: nat, i: nat)
    requires SlotOk(l, heads, s) && i < |l|
    ensures l[i] in heads && Slot(heads[l[i]]) == s
  {
  }

  /** Where the slot scan stops: in front of the first object not due earlier. */
  ghost predicate SlotPlace(l: seq<Obj>, heads: map<Obj, nat>, when: nat, i: nat) {
    && i <= |l| && (forall k | 0 <= k < |l| :: l[k] in heads)
    && (forall k | 0 <= k < i :: heads[l[k]] < when)
    && (i < |l| ==> when <= heads[l[i]])
  }

  lemma SlotWith(l: seq<Obj>, heads: map<Obj, nat>, o: Obj, when: nat, i: nat)
    requires SlotOk(l, heads, Slot(when)) && o !in heads && SlotPlace(l, heads, when, i)
    ensures SlotOk(With(l, o, i), heads[o := when], Slot(when))
    ensures o in With(l, o, i) && forall x | x in l :: x in With(l, o, i)
  {
    hide With, Slot;
    var l', h := With(l, o, i), heads[o := when];
    assert l'[i] == o;
    forall x | x in l ensures x in l' {
      var k :| 0 <= k < |l| && l[k] == x;
      assert l'[if k < i then k else k + 1] == x;
    }
    assert forall k | i <= k < |l| :: when <= heads[l[k]];
    assert forall k | 0 <= k < |l'| :: l'[k] in h && Slot(h[l'[k]]) == Slot(when);
  }

  /** Linking an object into the slot of its earliest due time. */
  lemma Linked(slots: seq<seq<Obj>>, heads: map<Obj, nat>, o: Obj, when: nat, i: nat)
    requires Placed(slots, heads) && o !in heads && SlotPlace(slots[Slot(when)], heads, when, i)
    ensures var s := Slot(when); Placed(slots[s := With(slots[s], o, i)], heads[o := when])
  {
    hide SlotOk, With, Slot, SlotPlace;
    var s := Slot(when);
    assert SlotOk(slots[s], heads, s);
    SlotWith(slots[s], heads, o, when, i);
    forall t | 0 <= t < NUM_SLOTS && t != s ensures SlotOk(slots[t], heads[o := when], t) {
      SlotGrow(slots[t], heads, t, o, when);
    }
  }

  lemma SlotGrow(l: seq<Obj>, heads: map<Obj, nat>, s: nat, o: Obj, when: nat)
    requires SlotOk(l, heads, s) && o !in heads
    ensures SlotOk(l, heads[o := when], s)
  {
  }
}
