/**
 What the sensor knows.  It sees nothing but the deltas, so its set of open connections is the
 replay of every message.  This module proves, over whole runs of afterglow cycles, how that set
 relates to the state the collector remembers and to the snapshots it has taken.
 */
module SensorView {
  import opened ConnStatus
  import opened DeltaReporting
  import opened Options

  function ActiveKeys<T>(m: StatusMap<T>): set<T> {
    set k | k in m && m[k].active
  }

  function InactiveKeys<T>(m: StatusMap<T>): set<T> {
    set k | k in m && !m[k].active
  }

  /** Keys the collector treats as active at time `at`. */
  function RecentKeys<T>(m: StatusMap<T>, at: int, period: int): set<T> {
    set k | k in m && m[k].RecentlyActive(at, period)
  }

  /** The sensor opens every active entry of a message and closes every inactive one. */
  function Replay<T>(sensor: set<T>, message: StatusMap<T>): set<T> {
    (sensor - InactiveKeys(message)) + ActiveKeys(message)
  }

  /** Rate limiting withholds opens and never closes. */
  function Withhold<T>(delta: StatusMap<T>, dropped: set<T>): StatusMap<T> {
    map k | k in delta && !(delta[k].active && k in dropped) :: delta[k]
  }

  datatype View<T> = View(past: StatusMap<T>, last: int, sensor: set<T>)

  /** `closes` is the test of the external-IPs change, false everywhere when nothing changed. */
  datatype Cycle<!T> = Cycle(snap: StatusMap<T>, now: int, closes: T -> bool, dropped: set<T>)

  function CycleDelta<T>(v: View<T>, c: Cycle<T>, period: int): StatusMap<T> {
    ClosedDelta(v.past, AfterglowDelta(c.snap, v.past, c.now, v.last, period), c.closes)
  }

  function CycleMessage<T>(v: View<T>, c: Cycle<T>, period: int): StatusMap<T> {
    Withhold(CycleDelta(v, c, period), c.dropped)
  }

  function Next<T>(v: View<T>, c: Cycle<T>, period: int): View<T> {
    View(NextOld(Unclosed(v.past, c.closes), c.snap, c.now, period), c.now,
         Replay(v.sensor, CycleMessage(v, c, period)))
  }

  function Believed<T>(v: View<T>, period: int): set<T> {
    RecentKeys(v.past, v.last, period)
  }

  // ----- one cycle

  /** A clock that went back: the entry glows again although the sensor was told it closed. */
  predicate Rekindled<T>(v: View<T>, c: Cycle<T>, period: int, k: T) {
    && k in v.past && k !in c.snap && !c.closes(k)
    && v.past[k].InAfterglow(c.now, period) && !v.past[k].RecentlyActive(v.last, period)
  }

  /** The external-IPs change closes a connection that the snapshot shows alive. */
  predicate ClosedAlive<T>(v: View<T>, c: Cycle<T>, period: int, k: T) {
    && k in v.past && k in c.snap && c.closes(k)
    && v.past[k].RecentlyActive(v.last, period) && c.snap[k].RecentlyActive(c.now, period)
  }

  predicate Disturbed<T>(v: View<T>, c: Cycle<T>, period: int, k: T) {
    Rekindled(v, c, period, k) || ClosedAlive(v, c, period, k)
  }

  /** One key through any cycle: which keys the delta opens and closes, and what a disturbance does. */
  lemma KeyThroughCycle<T>(v: View<T>, c: Cycle<T>, period: int, k: T)
    ensures k in Believed(Next(v, c, period), period) <==>
            || (k in Believed(v, period) && k !in InactiveKeys(CycleDelta(v, c, period)))
            || k in ActiveKeys(CycleDelta(v, c, period))
            || Disturbed(v, c, period, k)
    ensures k in ActiveKeys(CycleDelta(v, c, period)) ==> k !in Believed(v, period) && !Disturbed(v, c, period, k)
    ensures Disturbed(v, c, period, k) && k in Believed(v, period) ==> k in InactiveKeys(CycleDelta(v, c, period))
  {
    var entry := AfterglowEntry(Get(c.snap, k), Get(v.past, k), c.now, v.last, period);
    assert Get(AfterglowDelta(c.snap, v.past, c.now, v.last, period), k) == entry;
    assert Get(CycleDelta(v, c, period), k) ==
      if entry.None? && k in v.past && c.closes(k) then Some(v.past[k].WithActive(false)) else entry;
  }

  function DisturbedKeys<T>(v: View<T>, c: Cycle<T>, period: int): set<T> {
    set k | k in v.past && Disturbed(v, c, period, k)
  }

  /** Non-decreasing times and a snapshot free of closed keys rule out every disturbance. */
  predicate Orderly<T>(v: View<T>, c: Cycle<T>) {
    v.last <= c.now && forall k :: k in c.snap ==> !c.closes(k)
  }

  lemma OrderlyIsUndisturbed<T>(v: View<T>, c: Cycle<T>, period: int)
    requires Orderly(v, c)
    ensures DisturbedKeys(v, c, period) == {}
  {
  }

  /** Keys the collector believes open and the sensor does not. */
  function Missing<T>(v: View<T>, period: int): set<T> {
    Believed(v, period) - v.sensor
  }

  /**
   Every cycle keeps the sensor's set inside the collector's.  The difference is known exactly: what
   was missing and is still believed, the opens withheld in this cycle, and the keys it disturbs.  So
   a withheld connection stays missing for as long as it stays recently active; its open is never
   retried.
   */
  lemma RateLimitedCycle<T>(v: View<T>, c: Cycle<T>, period: int)
    requires v.sensor <= Believed(v, period)
    ensures Next(v, c, period).sensor <= Believed(Next(v, c, period), period)
    ensures Missing(Next(v, c, period), period) ==
            (Missing(v, period) * Believed(Next(v, c, period), period))
            + (ActiveKeys(CycleDelta(v, c, period)) * c.dropped)
            + DisturbedKeys(v, c, period)
    ensures DisturbedKeys(v, c, period) == {} ==>
            Missing(v, period) * Believed(Next(v, c, period), period) ==
            Missing(v, period) - InactiveKeys(CycleDelta(v, c, period))
    ensures ActiveKeys(CycleMessage(v, c, period)) !! v.sensor
  {
    hide CycleDelta, NextOld, Unclosed, RecentKeys, Rekindled, ClosedAlive;
    var w, delta, disturbed := Next(v, c, period), CycleDelta(v, c, period), DisturbedKeys(v, c, period);
    WithheldKeys(delta, c.dropped);
    forall k | k in Believed(v, period) + ActiveKeys(delta) + Believed(w, period) + disturbed
      ensures k in Believed(w, period) <==>
              || (k in Believed(v, period) && k !in InactiveKeys(delta))
              || k in ActiveKeys(delta) || k in disturbed
      ensures k in ActiveKeys(delta) ==> k !in Believed(v, period) && k !in disturbed
      ensures k in disturbed && k in Believed(v, period) ==> k in InactiveKeys(delta)
    {
      KeyThroughCycle(v, c, period, k);
      DisturbedIsRemembered(v, c, period, k);
    }
    hide Withhold, ActiveKeys, InactiveKeys, DisturbedKeys;
  }

  lemma DisturbedIsRemembered<T>(v: View<T>, c: Cycle<T>, period: int, k: T)
    ensures Disturbed(v, c, period, k) ==> k in v.past
  {
  }

  lemma DisturbedKeyDiverges<T>(v: View<T>, c: Cycle<T>, period: int, k: T)
    requires v.sensor <= Believed(v, period) && Disturbed(v, c, period, k)
    ensures k in Believed(Next(v, c, period), period) && k !in Next(v, c, period).sensor
  {
    hide Next, Believed, Disturbed, CycleDelta;
    RateLimitedCycle(v, c, period);
    DisturbedIsRemembered(v, c, period, k);
    assert k in Missing(Next(v, c, period), period);
  }

  /**
   If the view was exact before a cycle that delivers its delta whole, it is exact afterwards if
   and only if the cycle disturbs no key.
   */
  lemma CycleKeepsViewExactly<T>(v: View<T>, c: Cycle<T>, period: int)
    requires v.sensor == Believed(v, period) && c.dropped == {}
    ensures Next(v, c, period).sensor == Believed(Next(v, c, period), period)
            <==> forall k :: k in v.past ==> !Disturbed(v, c, period, k)
  {
    hide Next, Believed, Disturbed, CycleDelta;
    RateLimitedCycle(v, c, period);
    var w := Next(v, c, period);
    assert Missing(w, period) == DisturbedKeys(v, c, period);
    if Missing(w, period) == {} {
      forall k | k in v.past ensures !Disturbed(v, c, period, k) {
        assert k !in DisturbedKeys(v, c, period);
      }
      forall k | k in Believed(w, period) ensures k in w.sensor {
        assert k !in Missing(w, period);
      }
    }
  }

  lemma WithheldKeys<T>(delta: StatusMap<T>, dropped: set<T>)
    ensures InactiveKeys(Withhold(delta, dropped)) == InactiveKeys(delta)
    ensures ActiveKeys(Withhold(delta, dropped)) == ActiveKeys(delta) - dropped
  {
  }

  /** Every old connection the external-IPs change affects and no snapshot confirms is closed and forgotten. */
  lemma ClosedConnectionsAreReported<T>(v: View<T>, c: Cycle<T>, period: int, k: T)
    requires k in v.past && c.closes(k) && k !in c.snap
    ensures k in InactiveKeys(CycleMessage(v, c, period))
    ensures CycleMessage(v, c, period)[k].time == v.past[k].time
    ensures k !in Next(v, c, period).past && k !in Next(v, c, period).sensor
  {
  }

  /**
   A delta carries nothing but news, and carries it with the time last seen: an entry changes what
   the sensor should believe, names a connection the collector did not remember, or reports later
   activity of a connection that is still closed.  Only a clock that goes back changes what is
   believed and says nothing.
   */
  lemma DeltaIsNews<T>(v: View<T>, c: Cycle<T>, period: int, k: T)
    requires k in c.snap ==> !c.closes(k)
    ensures k in CycleDelta(v, c, period) <==>
            || ((k in Believed(v, period)) != (k in Believed(Next(v, c, period), period))
                && !Rekindled(v, c, period, k))
            || (k in c.snap && k !in v.past)
            || (k in c.snap && k in v.past && k !in Believed(v, period) && v.past[k].time < c.snap[k].time)
            || (k in v.past && c.closes(k))
    ensures k in CycleDelta(v, c, period) ==>
            && CycleDelta(v, c, period)[k].time == (if k in c.snap then c.snap[k].time else v.past[k].time)
            && CycleDelta(v, c, period)[k].active == (k in Believed(Next(v, c, period), period))
  {
    var entry := AfterglowEntry(Get(c.snap, k), Get(v.past, k), c.now, v.last, period);
    assert Get(AfterglowDelta(c.snap, v.past, c.now, v.last, period), k) == entry;
  }

  // ----- whole runs

  function Run<T>(v: View<T>, cycles: seq<Cycle<T>>, period: int): View<T> {
    if cycles == [] then v
    else
      var n := |cycles| - 1;
      Next(Run(v, cycles[..n], period), cycles[n], period)
  }

  predicate OrderlyRun<T>(v: View<T>, cycles: seq<Cycle<T>>, period: int) {
    forall i :: 0 <= i < |cycles| ==> Orderly(Run(v, cycles[..i], period), cycles[i])
  }

  lemma OrderlyPrefix<T>(v: View<T>, cycles: seq<Cycle<T>>, period: int)
    requires cycles != [] && OrderlyRun(v, cycles, period)
    ensures OrderlyRun(v, cycles[..|cycles| - 1], period)
    ensures Orderly(Run(v, cycles[..|cycles| - 1], period), cycles[|cycles| - 1])
  {
  }

  /** In every run with all deltas delivered whole, the sensor's set is exactly the collector's. */
  lemma {:induction false} RunKeepsView<T>(v: View<T>, cycles: seq<Cycle<T>>, period: int)
    requires v.sensor == Believed(v, period) && OrderlyRun(v, cycles, period)
    requires forall i :: 0 <= i < |cycles| ==> cycles[i].dropped == {}
    ensures Run(v, cycles, period).sensor == Believed(Run(v, cycles, period), period)
  {
    if cycles != [] {
      var n := |cycles| - 1;
      OrderlyPrefix(v, cycles, period);
      RunKeepsView(v, cycles[..n], period);
      var w := Run(v, cycles[..n], period);
      OrderlyIsUndisturbed(w, cycles[n], period);
      forall k | k in w.past ensures !Disturbed(w, cycles[n], period, k) {
        assert k !in DisturbedKeys(w, cycles[n], period);
      }
      CycleKeepsViewExactly(w, cycles[n], period);
    }
  }

  /** In every run, with any opens withheld, the sensor never holds a connection the collector does not. */
  lemma {:induction false} RateLimitedRun<T>(v: View<T>, cycles: seq<Cycle<T>>, period: int)
    requires v.sensor <= Believed(v, period)
    ensures Run(v, cycles, period).sensor <= Believed(Run(v, cycles, period), period)
  {
    if cycles != [] {
      var n := |cycles| - 1;
      RateLimitedRun(v, cycles[..n], period);
      RateLimitedCycle(Run(v, cycles[..n], period), cycles[n], period);
    }
  }

  /** In every run, no message opens a connection that the sensor already holds open. */
  lemma NeverReopened<T>(v: View<T>, cycles: seq<Cycle<T>>, period: int, i: nat)
    requires v.sensor <= Believed(v, period) && i < |cycles|
    ensures var w := Run(v, cycles[..i], period);
            ActiveKeys(CycleMessage(w, cycles[i], period)) !! w.sensor
  {
    hide Run, Believed, CycleMessage, ActiveKeys;
    RateLimitedRun(v, cycles[..i], period);
    RateLimitedCycle(Run(v, cycles[..i], period), cycles[i], period);
  }

  /**
   Snapshot `j` is the last to mention `k`, and in no later cycle did a change of the setting close
   `k` or its afterglow end.
   */
  ghost predicate Kept<T>(cycles: seq<Cycle<T>>, period: int, k: T, j: int) {
    && 0 <= j < |cycles| && k in cycles[j].snap
    && forall i :: j < i < |cycles| ==>
         k !in cycles[i].snap && !cycles[i].closes(k) && cycles[j].snap[k].InAfterglow(cycles[i].now, period)
  }

  /** Recently active at the last cycle, by the last snapshot to mention it. */
  ghost predicate OpenByHistory<T>(cycles: seq<Cycle<T>>, period: int, k: T) {
    exists j :: Kept(cycles, period, k, j)
                && cycles[j].snap[k].RecentlyActive(cycles[|cycles| - 1].now, period)
  }

  lemma KeptLonger<T>(cycles: seq<Cycle<T>>, period: int, k: T, j: int)
    requires cycles != []
    ensures var n := |cycles| - 1;
            Kept(cycles, period, k, j) <==>
            if j == n then k in cycles[n].snap
            else && Kept(cycles[..n], period, k, j) && k !in cycles[n].snap && !cycles[n].closes(k)
                 && cycles[j].snap[k].InAfterglow(cycles[n].now, period)
  {
    var shorter := cycles[..|cycles| - 1];
    assert forall i :: 0 <= i < |shorter| ==> shorter[i] == cycles[i];
  }

  lemma KeptInRange<T>(cycles: seq<Cycle<T>>, period: int, k: T)
    ensures forall j :: Kept(cycles, period, k, j) ==> 0 <= j < |cycles| && k in cycles[j].snap
  {
  }

  lemma PastOfKey<T>(v: View<T>, c: Cycle<T>, period: int, k: T)
    ensures Get(Next(v, c, period).past, k) ==
            if k in c.snap then Some(c.snap[k])
            else if k in v.past && !c.closes(k) && v.past[k].InAfterglow(c.now, period) then Some(v.past[k])
            else None
  {
  }

  /** What is remembered of a connection, in every run from nothing, is the snapshot it was kept from. */
  lemma {:induction false} PastByHistory<T>(start: int, cycles: seq<Cycle<T>>, period: int, k: T)
    ensures var past := Run(View(map[], start, {}), cycles, period).past;
            && (k in past ==> exists j :: Kept(cycles, period, k, j) && past[k] == cycles[j].snap[k])
            && (forall j :: Kept(cycles, period, k, j) ==> k in past && past[k] == cycles[j].snap[k])
  {
    hide Kept, Next;
    KeptInRange(cycles, period, k);
    if cycles != [] {
      var n := |cycles| - 1;
      var shorter := cycles[..n];
      KeptInRange(shorter, period, k);
      PastByHistory(start, shorter, period, k);
      var v := Run(View(map[], start, {}), shorter, period);
      PastOfKey(v, cycles[n], period, k);
      forall j | Kept(cycles, period, k, j)
        ensures var past := Next(v, cycles[n], period).past; k in past && past[k] == cycles[j].snap[k]
      {
        KeptLonger(cycles, period, k, j);
      }
      KeptLonger(cycles, period, k, n);
      if k !in cycles[n].snap && k in v.past {
        var j :| Kept(shorter, period, k, j) && v.past[k] == shorter[j].snap[k];
        KeptLonger(cycles, period, k, j);
      }
    }
  }

  lemma BelievedByHistory<T>(start: int, cycles: seq<Cycle<T>>, period: int, k: T)
    ensures k in Believed(Run(View(map[], start, {}), cycles, period), period) <==> OpenByHistory(cycles, period, k)
  {
    PastByHistory(start, cycles, period, k);
    var w := Run(View(map[], start, {}), cycles, period);
    assert cycles != [] ==> w.last == cycles[|cycles| - 1].now;
  }

  /** If the clock never goes back, the afterglow need be tested only at the last cycle. */
  lemma KeptByOrderedClock<T>(cycles: seq<Cycle<T>>, period: int, k: T, j: int)
    requires 0 <= j < |cycles| && forall i, l :: 0 <= i <= l < |cycles| ==> cycles[i].now <= cycles[l].now
    ensures var n := |cycles| - 1;
            Kept(cycles, period, k, j) <==>
            && k in cycles[j].snap
            && (forall i :: j < i < |cycles| ==> k !in cycles[i].snap && !cycles[i].closes(k))
            && (j < n ==> cycles[j].snap[k].InAfterglow(cycles[n].now, period))
  {
  }

  /**
   The sensor's set as a function of the snapshots alone: after any orderly run from the empty state
   with all deltas delivered whole, the sensor holds open exactly what the snapshots say is open.
   */
  lemma SensorFollowsHistory<T>(start: int, cycles: seq<Cycle<T>>, period: int, k: T)
    requires OrderlyRun(View(map[], start, {}), cycles, period)
    requires forall i :: 0 <= i < |cycles| ==> cycles[i].dropped == {}
    ensures k in Run(View(map[], start, {}), cycles, period).sensor <==> OpenByHistory(cycles, period, k)
  {
    hide OrderlyRun, Run, OpenByHistory;
    RunKeepsView(View(map[], start, {}), cycles, period);
    BelievedByHistory(start, cycles, period, k);
  }

  /**
   A clock that goes back breaks the equality: a connection last seen at 5 is reported closed in the
   cycle at 20; in the next cycle, at 12, the collector takes it for open again and says nothing.
   */
  lemma BackwardClockDiverges()
    ensures var c1 := Cycle(map[0 := Status(5, false)], 20, (k: int) => false, {});
            var c2 := Cycle(map[], 12, (k: int) => false, {});
            var v := Next(Next(View(map[], 0, {}), c1, 10), c2, 10);
            v.sensor == {} && Believed(v, 10) == {0}
  {
    hide Next, Believed;
    var c1 := Cycle(map[0 := Status(5, false)], 20, (k: int) => false, {});
    var c2 := Cycle(map[], 12, (k: int) => false, {});
    ClosedAtTwenty(c1);
    var v := Next(View(map[], 0, {}), c1, 10);
    assert Rekindled(v, c2, 10, 0);
    DisturbedKeyDiverges(v, c2, 10, 0);
    KeysAfter(v, c2, 10);
  }

  lemma ClosedAtTwenty(c: Cycle<int>)
    requires c.snap == map[0 := Status(5, false)] && c.now == 20 && c.dropped == {} && !c.closes(0)
    ensures var v := Next(View(map[], 0, {}), c, 10);
            v.past == map[0 := Status(5, false)] && v.last == 20 && v.sensor == {} && Believed(v, 10) == {}
  {
    var delta := AfterglowDelta(c.snap, map[], c.now, 0, 10);
    assert delta.Keys <= {0} && (0 in delta ==> !delta[0].active);
  }

  /** A cycle brings in no key from outside. */
  lemma KeysAfter<T>(v: View<T>, c: Cycle<T>, period: int)
    ensures Believed(Next(v, c, period), period) <= v.past.Keys + c.snap.Keys
    ensures Next(v, c, period).sensor <= v.sensor + v.past.Keys + c.snap.Keys
  {
    hide AfterglowEntry;
  }

  // ----- without afterglow

  /** The in-place delta turns the old active set into exactly the new one, and repeats nothing. */
  lemma PlainDeltaReplays<T>(snap: StatusMap<T>, past: StatusMap<T>)
    ensures Replay(ActiveKeys(past), PlainDelta(snap, past)) == ActiveKeys(snap)
    ensures ActiveKeys(PlainDelta(snap, past)) == ActiveKeys(snap) - ActiveKeys(past)
    ensures ActiveKeys(past) - ActiveKeys(snap) <= InactiveKeys(PlainDelta(snap, past))
  {
  }

  /** The plain delta too carries nothing but news, and all of it. */
  lemma PlainDeltaIsNews<T>(snap: StatusMap<T>, past: StatusMap<T>, k: T)
    ensures k in PlainDelta(snap, past) <==>
            || (k in ActiveKeys(past)) != (k in ActiveKeys(snap))
            || (k in snap && k !in past)
            || (k in snap && k in past && k !in ActiveKeys(past) && past[k].time < snap[k].time)
    ensures k in PlainDelta(snap, past) ==>
            PlainDelta(snap, past)[k] == Status(if k in snap then snap[k].time else past[k].time, k in ActiveKeys(snap))
  {
    assert Get(PlainDelta(snap, past), k) == PlainEntry(Get(snap, k), Get(past, k));
  }

  /** With a zero afterglow period and no time later than its scrape, both deltas are the same. */
  lemma ZeroAfterglowIsPlain<T>(snap: StatusMap<T>, past: StatusMap<T>, now: int, last: int)
    requires forall k :: k in snap ==> snap[k].time <= now
    requires forall k :: k in past ==> past[k].time <= last && past[k].time <= now
    ensures AfterglowDelta(snap, past, now, last, 0) == PlainDelta(snap, past)
  {
  }

  /**
   Without afterglow too the sensor's set stays inside the active set, and what is missing is what
   was missing and is still active, and the opens withheld.
   */
  lemma PlainCycleKeepsView<T>(snap: StatusMap<T>, past: StatusMap<T>, sensor: set<T>, dropped: set<T>)
    requires sensor <= ActiveKeys(past)
    ensures var sensor' := Replay(sensor, Withhold(PlainDelta(snap, past), dropped));
            && sensor' <= ActiveKeys(snap)
            && ActiveKeys(snap) - sensor' ==
               ((ActiveKeys(past) - sensor) * ActiveKeys(snap)) + (ActiveKeys(PlainDelta(snap, past)) * dropped)
  {
    hide PlainDelta, ActiveKeys, InactiveKeys, Withhold;
    PlainDeltaReplays(snap, past);
    WithheldKeys(PlainDelta(snap, past), dropped);
  }
}
