/** The sensor schedule: configured changes of the reading rate and the ticks that apply them. */
module Sensor {

  /** From start to finish the reading rate is rate. */
  datatype Change = Change(start: real, finish: real, rate: real)

  /** Where the schedule stands: the next change to consider and the rate in force. */
  datatype State = State(next: nat, rate: real)

  // ----- The list of changes

  /** The changes are in order and never touch. */
  predicate InOrder(cs: seq<Change>) {
    && (forall i | 0 <= i < |cs| :: cs[i].start <= cs[i].finish)
    && (forall i, k | 0 <= i < k < |cs| :: cs[i].finish < cs[k].start)
  }

  predicate Disjoint(c: Change, d: Change) {
    c.finish < d.start || d.finish < c.start
  }

  /** The place of a new change: before the first one that starts after it has finished. */
  ghost predicate IsPlace(cs: seq<Change>, d: Change, at: nat) {
    && at <= |cs| && (at < |cs| ==> cs[at].start > d.finish)
    && forall i | 0 <= i < at :: cs[i].start <= d.finish
  }

  function Inserted(cs: seq<Change>, d: Change, at: nat): (r: seq<Change>)
    requires at <= |cs|
    ensures |r| == |cs| + 1 && r[at] == d
    ensures forall i | 0 <= i < at :: r[i] == cs[i]
    ensures forall i | at < i <= |cs| :: r[i] == cs[i-1]
  {
    cs[..at] + [d] + cs[at..]
  }

  lemma KeptInOrder(cs: seq<Change>, d: Change, at: nat, i: nat, k: nat)
    requires InOrder(cs) && d.start <= d.finish && IsPlace(cs, d, at) && i < k <= |cs|
    requires forall c | 0 <= c < |cs| :: Disjoint(cs[c], d)
    ensures Inserted(cs, d, at)[i].finish < Inserted(cs, d, at)[k].start
  {
    if k == at {
      assert Disjoint(cs[i], d);
    } else if i == at {
      assert cs[at].start > d.finish;
      assert at < k - 1 ==> cs[at].finish < cs[k-1].start;
    }
  }

  /** Inserting keeps the order if and only if the new change touches none of the old ones. */
  lemma InsertKeepsOrder(cs: seq<Change>, d: Change, at: nat)
    requires InOrder(cs) && d.start <= d.finish && IsPlace(cs, d, at)
    ensures InOrder(Inserted(cs, d, at)) <==> forall i | 0 <= i < |cs| :: Disjoint(cs[i], d)
  {
    var all := Inserted(cs, d, at);
    if forall i | 0 <= i < |cs| :: Disjoint(cs[i], d) {
      forall i, k | 0 <= i < k < |all| ensures all[i].finish < all[k].start {
        KeptInOrder(cs, d, at, i, k);
      }
      hide Inserted, Disjoint;
      forall i | 0 <= i < |all| ensures all[i].start <= all[i].finish {
        assert all[i] == if i < at then cs[i] else if i == at then d else cs[i-1];
      }
    } else {
      var i :| 0 <= i < |cs| && !Disjoint(cs[i], d);
      if at <= i { FarBehind(cs, d, at, i); }
      assert all[i].finish >= all[at].start;
    }
  }

  /** A change behind the place does not touch the new one. */
  lemma FarBehind(cs: seq<Change>, d: Change, at: nat, i: nat)
    requires InOrder(cs) && IsPlace(cs, d, at) && at <= i < |cs|
    ensures Disjoint(cs[i], d)
  {
    if at < i { assert cs[at].finish < cs[i].start; }
  }

  // ----- Ticks

  predicate InWindow(c: Change, t: real) {
    c.start <= t <= c.finish
  }

  /** What one tick at time t does. */
  function Tick(cs: seq<Change>, nominal: real, s: State, t: real): State {
    if s.next >= |cs| then s
    else if InWindow(cs[s.next], t) then State(s.next, cs[s.next].rate)
    else if t > cs[s.next].finish then State(s.next + 1, nominal)
    else s
  }

  /** The state after ticks at the given times. */
  function Run(cs: seq<Change>, nominal: real, times: seq<real>): State {
    if |times| == 0 then State(0, nominal)
    else Tick(cs, nominal, Run(cs, nominal, times[..|times|-1]), times[|times|-1])
  }

  predicate NonDecreasing(times: seq<real>) {
    forall i, k | 0 <= i <= k < |times| :: times[i] <= times[k]
  }

  lemma NonDecreasingPrefix(times: seq<real>)
    requires |times| > 0 && NonDecreasing(times)
    ensures NonDecreasing(times[..|times|-1])
    ensures forall i | 0 <= i < |times| :: times[i] <= times[|times|-1]
  {
  }

  /** Every change before the current one has finished. */
  lemma {:induction false} PassedChangesFinished(cs: seq<Change>, nominal: real, times: seq<real>, i: nat)
    requires |times| > 0 && NonDecreasing(times) && i < Run(cs, nominal, times).next
    ensures i < |cs| && cs[i].finish < times[|times|-1]
  {
    var before := times[..|times|-1];
    NonDecreasingPrefix(times);
    if i < Run(cs, nominal, before).next {
      if |before| > 0 {
        PassedChangesFinished(cs, nominal, before, i);
        assert before[|before|-1] <= times[|times|-1];
      }
    }
  }

  /** The rate is nominal, or that of the current change and then the last tick was in its window. */
  lemma {:induction false} RateFollowsWindow(cs: seq<Change>, nominal: real, times: seq<real>)
    requires NonDecreasing(times)
    ensures var s := Run(cs, nominal, times);
            s.rate == nominal || (|times| > 0 && s.next < |cs| && s.rate == cs[s.next].rate
                                  && InWindow(cs[s.next], times[|times|-1]))
  {
    if |times| > 0 {
      NonDecreasingPrefix(times);
      RateFollowsWindow(cs, nominal, times[..|times|-1]);
    }
  }

  /** The tick at t moves on to a change whose window has already begun: it only takes notice of the
      end of the change before. */
  predicate Lags(cs: seq<Change>, s: State, t: real) {
    s.next + 1 < |cs| && t > cs[s.next].finish && cs[s.next+1].start <= t <= cs[s.next+1].finish
  }

  lemma RateAfterTick(cs: seq<Change>, nominal: real, s: State, last: real, t: real)
    requires last <= t && forall i | 0 <= i < |cs| :: cs[i].rate != nominal && cs[i].start <= cs[i].finish
    requires s.rate == nominal || (s.next < |cs| && s.rate == cs[s.next].rate && cs[s.next].start <= last)
    ensures var now := Tick(cs, nominal, s, t);
            var open := now.next < |cs| && cs[now.next].start <= t <= cs[now.next].finish;
            now.rate == (if open then cs[now.next].rate else nominal) <==> !Lags(cs, s, t)
  {
  }

  /** After every tick of every run the rate in force is the wanted one for the change at which the
      schedule now stands, if and only if this tick did not have to move on into an open window. */
  lemma RateInForce(cs: seq<Change>, nominal: real, times: seq<real>, t: real)
    requires NonDecreasing(times + [t])
    requires forall i | 0 <= i < |cs| :: cs[i].rate != nominal && cs[i].start <= cs[i].finish
    ensures var now := Run(cs, nominal, times + [t]);
            var open := now.next < |cs| && cs[now.next].start <= t <= cs[now.next].finish;
            now.rate == (if open then cs[now.next].rate else nominal) <==> !Lags(cs, Run(cs, nominal, times), t)
  {
    hide Tick, Lags;
    var all := times + [t];
    assert all[..|all|-1] == times && all[|all|-1] == t;
    NonDecreasingPrefix(all);
    RateFollowsWindow(cs, nominal, times);
    var last := if |times| > 0 then times[|times|-1] else t;
    assert |times| > 0 ==> last == all[|times|-1];
    RateAfterTick(cs, nominal, Run(cs, nominal, times), last, t);
  }

  /** Two changes a second long and a tick that misses the first one: the second one is open, yet
      the rate stays nominal. */
  lemma LagExample()
    ensures var cs := [Change(1.0, 2.0, 5.0), Change(3.0, 4.0, 7.0)];
            InOrder(cs) && Lags(cs, Run(cs, 1.0, []), 3.5) && Run(cs, 1.0, [3.5]) == State(1, 1.0)
            && cs[1].start <= 3.5 <= cs[1].finish && cs[1].rate == 7.0
  {
    var cs := [Change(1.0, 2.0, 5.0), Change(3.0, 4.0, 7.0)];
    assert [3.5][..0] == [];
    assert Run(cs, 1.0, [3.5]) == Tick(cs, 1.0, Run(cs, 1.0, []), 3.5);
  }

  /** How many of the changes, from the first one on, have finished before time t. */
  function Finished(cs: seq<Change>, t: real): (n: nat)
    ensures n <= |cs| && (n < |cs| ==> t <= cs[n].finish) && forall i | 0 <= i < n :: cs[i].finish < t
  {
    if |cs| == 0 || cs[0].finish >= t then 0 else 1 + Finished(cs[1..], t)
  }

  function Min(a: int, b: int): int {
    if a < b then a else b
  }

  /** A schedule that lags catches up by one change a tick, as long as changes have finished. */
  lemma {:induction false} CatchesUp(cs: seq<Change>, nominal: real, times: seq<real>, more: seq<real>, t: real)
    requires forall i | 0 <= i < |more| :: more[i] >= t
    ensures Run(cs, nominal, times + more).next >= Min(Finished(cs, t), Run(cs, nominal, times).next + |more|)
    decreases |more|
  {
    if |more| == 0 {
      assert times + more == times;
    } else {
      var fewer := more[..|more|-1];
      var all := times + more;
      assert all[..|all|-1] == times + fewer && all[|all|-1] == more[|more|-1];
      CatchesUp(cs, nominal, times, fewer, t);
    }
  }

  // ----- The sensor

  class Sensor {
    var changes: seq<Change>
    var nominalRate: real
    var eventIndex: nat
    var frequency: real
    /** The times of the ticks so far. */
    ghost var times: seq<real>

    ghost predicate Valid()
      reads this
    {
      State(eventIndex, frequency) == Run(changes, nominalRate, times)
    }

    constructor (nominalRate: real)
      ensures Valid() && times == [] && changes == [] && this.nominalRate == nominalRate
    {
      changes, this.nominalRate, eventIndex, frequency := [], nominalRate, 0, nominalRate;
      times := [];
    }

    /** Adds a configured change, given as its three parts: not if there are more or fewer parts, if
        one is not a number, or if the end lies before the start. */
    method HandleChange(v: seq<string>, isNumber: string -> bool, atof: string -> real) returns (ok: bool)
      requires Valid() && times == []
      modifies this`changes
      ensures Valid()
      ensures ok <==> |v| == 3 && (forall i | 0 <= i < 3 :: isNumber(v[i])) && atof(v[0]) <= atof(v[1])
      ensures !ok ==> changes == old(changes)
      ensures ok ==> exists at: nat ::
        IsPlace(old(changes), Change(atof(v[0]), atof(v[1]), atof(v[2])), at)
        && changes == Inserted(old(changes), Change(atof(v[0]), atof(v[1]), atof(v[2])), at)
      ensures ok && old(InOrder(changes)) ==> (InOrder(changes) <==>
        forall i | 0 <= i < |old(changes)| :: Disjoint(old(changes)[i], Change(atof(v[0]), atof(v[1]), atof(v[2]))))
    {
      if |v| != 3 {
        return false;
      }
      var i := 0;
      while i < |v|
        invariant i <= |v| && forall k | 0 <= k < i :: isNumber(v[k])
      {
        if !isNumber(v[i]) {
          return false;
        }
        i := i + 1;
      }
      if atof(v[0]) > atof(v[1]) {
        return false;
      }
      var d := Change(atof(v[0]), atof(v[1]), atof(v[2]));
      var it := 0;
      while it < |changes| && changes[it].start <= d.finish
        invariant it <= |changes| && forall k | 0 <= k < it :: changes[k].start <= d.finish
      {
        it := it + 1;
      }
      if InOrder(changes) { InsertKeepsOrder(changes, d, it); }
      assert IsPlace(changes, d, it);
      changes := Inserted(changes, d, it);
      ok := true;
    }

    /** One tick: applies the change that is due, or notices that it is over. */
    method Iterate(currentTime: real)
      requires Valid()
      modifies this`eventIndex, this`frequency, this`times
      ensures Valid() && times == old(times) + [currentTime]
      ensures State(eventIndex, frequency) == Tick(changes, nominalRate, old(State(eventIndex, frequency)), currentTime)
    {
      assert (times + [currentTime])[..|times|] == times;
      if eventIndex < |changes| {
        var deg := changes[eventIndex];
        if currentTime >= deg.start && currentTime <= deg.finish {
          frequency := deg.rate;
        } else if currentTime > deg.finish {
          eventIndex := eventIndex + 1;
          frequency := nominalRate;
        }
      }
      times := times + [currentTime];
    }
  }
}
