/** The alarm clock (src/port.c): never backwards, whatever the system's clock does. */
module Clock {

  const TIME_RES: int := 10

  datatype State = State(base: int, last: int)

  /** Ticks shown for a time of day. */
  function Raw(base: int, sec: int, usec: int): int
    requires 0 <= usec < 1000000
  {
    (sec - base) * TIME_RES + usec * TIME_RES / 1000000
  }

  /** What is shown is the number of whole ticks, tenths of a second, since the base. */
  lemma WholeTicks(base: int, sec: int, usec: int)
    requires 0 <= usec < 1000000
    ensures var elapsed := (sec - base) * 1000000 + usec; var t := Raw(base, sec, usec);
            t * 100000 <= elapsed < (t + 1) * 100000
  {
  }

  class AlarmClock {
    var base: int
    var last: int
    var alarmTime: int

    constructor ()
      ensures base == 0 && last == 0
    {
      base, last, alarmTime := 0, 0, 0;
    }

    /** set_current_time, with the time of day as an input. */
    method SetCurrentTime(sec: int, usec: int)
      requires 0 <= usec < 1000000
      modifies this
      ensures State(base, last) == Step(old(State(base, last)), sec, usec)
      ensures alarmTime == last >= old(last)
    {
      if base == 0 { base := sec; }
      alarmTime := (sec - base) * TIME_RES + usec * TIME_RES / 1000000;
      if alarmTime < last {
        base := base - (last - alarmTime) / TIME_RES;
        alarmTime := alarmTime + (last - alarmTime + TIME_RES);
      }
      last := alarmTime;
    }
  }

  function Step(s: State, sec: int, usec: int): State
    requires 0 <= usec < 1000000
  {
    var base := if s.base == 0 then sec else s.base;
    var t := Raw(base, sec, usec);
    if t < s.last then State(base - (s.last - t) / TIME_RES, s.last + TIME_RES) else State(base, t)
  }

  function Run(s: State, times: seq<(int, int)>): State
    requires forall i | 0 <= i < |times| :: 0 <= times[i].1 < 1000000
  {
    if times == [] then s else Step(Run(s, times[..|times| - 1]), times[|times| - 1].0, times[|times| - 1].1)
  }

  /** Over any run the alarm time never moves backwards. */
  lemma {:induction false} NeverBackwards(s: State, times: seq<(int, int)>, i: nat, j: nat)
    requires (forall k | 0 <= k < |times| :: 0 <= times[k].1 < 1000000) && i <= j <= |times|
    ensures Run(s, times[..i]).last <= Run(s, times[..j]).last
    decreases j
  {
    if i < j {
      NeverBackwards(s, times, i, j - 1);
      assert times[..j][..j - 1] == times[..j - 1];
    }
  }

  /** The clock shows the time of day since its base exactly if that is not behind what it
      has already shown. */
  lemma Faithful(s: State, sec: int, usec: int)
    requires 0 <= usec < 1000000 && s.base != 0
    ensures Step(s, sec, usec).last == Raw(s.base, sec, usec) <==> s.last <= Raw(s.base, sec, usec)
  {
  }

  function Same(sec: int, usec: int, n: nat): seq<(int, int)> { seq(n, _ => (sec, usec)) }

  /** Once the system's clock has been set back, the base is not moved far enough: every
      further call at the same time of day advances the alarm clock by another second, and
      the clock stays between one and two seconds ahead of what its base would show. */
  lemma {:induction false} RunsAhead(s: State, sec: int, usec: int, n: nat)
    requires 0 <= usec < 1000000 && Raw(s.base, sec, usec) < s.last
    requires s.base > (s.last - Raw(s.base, sec, usec)) / TIME_RES + n
    ensures var r := Run(s, Same(sec, usec, n));
            && r.last == s.last + n * TIME_RES
            && (n > 0 ==> TIME_RES <= r.last - Raw(r.base, sec, usec) < 2 * TIME_RES)
            && r.base > 0 && (n > 0 ==> r.base == s.base - (s.last - Raw(s.base, sec, usec)) / TIME_RES - (n - 1))
  {
    if n > 0 {
      RunsAhead(s, sec, usec, n - 1);
      assert Same(sec, usec, n)[..n - 1] == Same(sec, usec, n - 1);
    }
  }
}
