/**
 What holds of every run of the reporting loop: the sensor, which sees only the messages, never holds
 more open than the collector, and what it lacks is known exactly; every message is news and within
 the limit; what the sensor holds open is determined by the snapshots and by what was lost.
 */
module WholeRuns {
  import opened ConnStatus
  import opened DeltaReporting
  import opened Emission
  import opened Networks
  import opened Normalization
  import opened Notifier
  import opened Options
  import opened PrefixMatch
  import opened SensorView
  import opened Tracker

  // ----- one round

  /** The connections the collector takes to be open. */
  function Believes<E>(s: Setup<E>, v: Vars<E>): set<Connection> {
    if s.afterglow then RecentKeys(v.past, v.last, s.period) else ActiveKeys(v.past)
  }

  /** What the collector takes to be open and the sensor does not hold open. */
  function Gap<E>(s: Setup<E>, v: Vars<E>): set<Connection> {
    Believes(s, v) - OpenConnections(v.messages)
  }

  /** The connections that a clock going back or a change of the setting unsettles in a round. */
  function Upset<E>(s: Setup<E>, v: Vars<E>, r: Round<E>): set<Connection> {
    if s.afterglow then DisturbedKeys(ViewOf(v), CycleOf(v, r), s.period) else {}
  }

  /** The sensor holds no more open than the collector, and exactly the active endpoints. */
  ghost predicate Follows<E>(s: Setup<E>, v: Vars<E>) {
    && OpenConnections(v.messages) <= Believes(s, v)
    && OpenEndpoints(v.messages) == ActiveKeys(v.pastEndpoints)
  }

  lemma OpenAfter<E>(before: seq<Message<E>>, m: Message<E>)
    ensures OpenConnections(before + [m]) == Replay(OpenConnections(before), m.connections)
    ensures OpenEndpoints(before + [m]) == Replay(OpenEndpoints(before), m.endpoints)
  {
    hide Replay;
    assert (before + [m])[..|before|] == before;
  }

  lemma ReplayNothing<T>(sensor: set<T>, dropped: set<T>)
    ensures Replay(sensor, map[]) == sensor && Withhold<T>(map[], dropped) == map[]
  {
  }

  /** A message that is not sent would have told the sensor nothing. */
  lemma OpenAfterRound<E>(s: Setup<E>, v: Vars<E>, r: Round<E>)
    ensures OpenConnections(StepVars(s, v, r).messages) ==
            Replay(OpenConnections(v.messages), Withhold(DeltaOf(s, v, r), r.dropped))
    ensures OpenEndpoints(StepVars(s, v, r).messages) ==
            Replay(OpenEndpoints(v.messages), PlainDelta(r.endpoints, v.pastEndpoints))
  {
    hide DeltaOf, PastOf, PlainDelta, Replay, Withhold, OpenConnections, OpenEndpoints;
    if MessageOf(s, v, r).Some? {
      OpenAfter(v.messages, MessageOf(s, v, r).value);
    } else {
      ReplayNothing(OpenConnections(v.messages), r.dropped);
      ReplayNothing<E>(OpenEndpoints(v.messages), {});
    }
  }

  lemma ViewAfterRound<E>(s: Setup<E>, v: Vars<E>, r: Round<E>)
    requires s.afterglow
    ensures ViewOf(StepVars(s, v, r)) == Next(ViewOf(v), CycleOf(v, r), s.period)
  {
    hide CycleDelta, NextOld, Unclosed, Replay, Withhold, OpenConnections, OpenEndpoints, PlainDelta, Closer;
    OpenAfterRound(s, v, r);
  }

  lemma DroppedOf<E>(v: Vars<E>, r: Round<E>)
    ensures CycleOf(v, r).dropped == r.dropped
  {
  }

  lemma AfterglowRound<E>(s: Setup<E>, v: Vars<E>, r: Round<E>)
    requires s.afterglow && OpenConnections(v.messages) <= Believes(s, v) && r.dropped <= ActiveKeys(DeltaOf(s, v, r))
    ensures var v' := StepVars(s, v, r);
            && OpenConnections(v'.messages) <= Believes(s, v')
            && Gap(s, v') == (Gap(s, v) * Believes(s, v')) + r.dropped + Upset(s, v, r)
    ensures ActiveKeys(Withhold(DeltaOf(s, v, r), r.dropped)) !! OpenConnections(v.messages)
  {
    hide CycleOf, CycleDelta, RecentKeys, ActiveKeys, InactiveKeys, Next, StepVars, OpenConnections, Withhold,
         DisturbedKeys;
    ViewAfterRound(s, v, r);
    RateLimitedCycle(ViewOf(v), CycleOf(v, r), s.period);
    DroppedOf(v, r);
    assert ActiveKeys(CycleDelta(ViewOf(v), CycleOf(v, r), s.period)) * r.dropped == r.dropped;
  }

  lemma SnapshotIsRemembered<E>(s: Setup<E>, v: Vars<E>, r: Round<E>)
    requires !s.afterglow
    ensures StepVars(s, v, r).past == r.snap
  {
  }

  lemma PlainRound<E>(s: Setup<E>, v: Vars<E>, r: Round<E>)
    requires !s.afterglow && OpenConnections(v.messages) <= Believes(s, v) && r.dropped <= ActiveKeys(DeltaOf(s, v, r))
    ensures var v' := StepVars(s, v, r);
            && OpenConnections(v'.messages) <= Believes(s, v')
            && Gap(s, v') == (Gap(s, v) * Believes(s, v')) + r.dropped + Upset(s, v, r)
    ensures ActiveKeys(Withhold(DeltaOf(s, v, r), r.dropped)) !! OpenConnections(v.messages)
  {
    hide OpenConnections, PlainDelta, Replay, StepVars, ActiveKeys, Withhold;
    OpenAfterRound(s, v, r);
    SnapshotIsRemembered(s, v, r);
    PlainCycleKeepsView(r.snap, v.past, OpenConnections(v.messages), r.dropped);
    PlainDeltaReplays(r.snap, v.past);
    WithheldKeys(PlainDelta(r.snap, v.past), r.dropped);
    assert ActiveKeys(PlainDelta(r.snap, v.past)) * r.dropped == r.dropped;
  }

  /**
   Any round, with or without afterglow, keeps the sensor inside what the collector takes to be open
   and opens nothing twice.  What the sensor then lacks is what it lacked and is still taken to be
   open, the opens withheld, and the connections disturbed.
   */
  lemma RoundGap<E>(s: Setup<E>, v: Vars<E>, r: Round<E>)
    requires Follows(s, v) && r.dropped <= ActiveKeys(DeltaOf(s, v, r))
    ensures var v' := StepVars(s, v, r);
            && Follows(s, v')
            && Gap(s, v') == (Gap(s, v) * Believes(s, v')) + r.dropped + Upset(s, v, r)
    ensures ActiveKeys(Withhold(DeltaOf(s, v, r), r.dropped)) !! OpenConnections(v.messages)
  {
    hide Believes, DeltaOf, PastOf, MessageOf, PlainDelta, Replay, OpenConnections, OpenEndpoints, Gap, Upset;
    if s.afterglow {
      AfterglowRound(s, v, r);
    } else {
      PlainRound(s, v, r);
    }
    OpenAfterRound(s, v, r);
    PlainDeltaReplays(r.endpoints, v.pastEndpoints);
  }

  // ----- whole runs

  /** Every round withholds only opens, and as many as its limit says. */
  ghost predicate WithinLimits<E>(s: Setup<E>, rounds: seq<Round<E>>) {
    forall j :: 0 <= j < |rounds| ==>
      LimitMet(DeltaOf(s, RunVars(s, rounds[..j]), rounds[j]), rounds[j].dropped, rounds[j].input.limit)
  }

  lemma WithinLimitsStep<E>(s: Setup<E>, rounds: seq<Round<E>>)
    requires rounds != []
    ensures var m := |rounds| - 1;
            WithinLimits(s, rounds) <==>
            && WithinLimits(s, rounds[..m])
            && LimitMet(DeltaOf(s, RunVars(s, rounds[..m]), rounds[m]), rounds[m].dropped, rounds[m].input.limit)
  {
    hide RunVars, DeltaOf, LimitMet;
    var shorter := rounds[..|rounds| - 1];
    assert forall j :: 0 <= j < |shorter| ==> shorter[..j] == rounds[..j] && shorter[j] == rounds[j];
  }

  lemma {:induction false} RoundsAreWithinLimits<E(!new)>(s: Setup<E>, script: seq<Input<E>>, rounds: seq<Round<E>>)
    requires RoundsOf(s, script, rounds)
    ensures WithinLimits(s, rounds)
    decreases |script|
  {
    hide Snapshots, DeltaOf, RunVars, LimitMet;
    if script != [] {
      var n, m := |script| - 1, |rounds| - 1;
      if script[n].scrape.Failed? {
        RoundsAreWithinLimits(s, script[..n], rounds);
      } else {
        RoundsAreWithinLimits(s, script[..n], rounds[..m]);
        WithinLimitsStep(s, rounds);
      }
    }
  }

  lemma {:induction false} RunFollows<E>(s: Setup<E>, rounds: seq<Round<E>>)
    requires WithinLimits(s, rounds)
    ensures Follows(s, RunVars(s, rounds))
  {
    hide WithinLimits, DeltaOf, StepVars, Upset, Gap;
    if rounds != [] {
      hide Follows;
      var m := |rounds| - 1;
      WithinLimitsStep(s, rounds);
      RunFollows(s, rounds[..m]);
      RoundGap(s, RunVars(s, rounds[..m]), rounds[m]);
    }
  }

  /** Round `j` withheld or disturbed `k`, and the collector has taken it to be open ever since. */
  ghost predicate LostAt<E>(s: Setup<E>, rounds: seq<Round<E>>, k: Connection, j: int) {
    && 0 <= j < |rounds|
    && k in rounds[j].dropped + Upset(s, RunVars(s, rounds[..j]), rounds[j])
    && forall i :: j < i <= |rounds| ==> k in Believes(s, RunVars(s, rounds[..i]))
  }

  ghost predicate Lost<E>(s: Setup<E>, rounds: seq<Round<E>>, k: Connection) {
    exists j :: LostAt(s, rounds, k, j)
  }

  lemma LostBefore<E>(s: Setup<E>, rounds: seq<Round<E>>, k: Connection, j: int)
    requires rounds != [] && j != |rounds| - 1
    ensures LostAt(s, rounds, k, j) <==>
            LostAt(s, rounds[..|rounds| - 1], k, j) && k in Believes(s, RunVars(s, rounds))
  {
    hide RunVars, Believes, Upset;
    var shorter := rounds[..|rounds| - 1];
    assert rounds[..|rounds|] == rounds;
    assert forall i :: 0 <= i <= |shorter| ==> shorter[..i] == rounds[..i];
    if LostAt(s, rounds, k, j) {
      assert k in Believes(s, RunVars(s, rounds[..|rounds|]));
      forall i | j < i <= |shorter| ensures k in Believes(s, RunVars(s, shorter[..i])) {
        assert shorter[..i] == rounds[..i];
      }
    }
    if LostAt(s, shorter, k, j) && k in Believes(s, RunVars(s, rounds)) {
      forall i | j < i <= |rounds| ensures k in Believes(s, RunVars(s, rounds[..i])) {
        assert i < |rounds| ==> shorter[..i] == rounds[..i];
      }
    }
  }

  lemma LostNow<E>(s: Setup<E>, rounds: seq<Round<E>>, k: Connection)
    requires rounds != []
    ensures var m := |rounds| - 1;
            LostAt(s, rounds, k, m) <==>
            && k in rounds[m].dropped + Upset(s, RunVars(s, rounds[..m]), rounds[m])
            && k in Believes(s, RunVars(s, rounds))
  {
    hide RunVars, Believes, Upset;
    assert rounds[..|rounds|] == rounds;
  }

  lemma LostStep<E>(s: Setup<E>, rounds: seq<Round<E>>, k: Connection)
    requires rounds != []
    ensures var m := |rounds| - 1;
            Lost(s, rounds, k) <==>
            && k in Believes(s, RunVars(s, rounds))
            && (Lost(s, rounds[..m], k) || k in rounds[m].dropped + Upset(s, RunVars(s, rounds[..m]), rounds[m]))
  {
    hide RunVars, Believes, Upset, LostAt;
    var m := |rounds| - 1;
    LostNow(s, rounds, k);
    NotLostAtEnd(s, rounds[..m], k);
    if j :| LostAt(s, rounds, k, j) {
      if j != m {
        LostBefore(s, rounds, k, j);
      }
    }
    if j :| LostAt(s, rounds[..m], k, j) {
      LostBefore(s, rounds, k, j);
    }
  }

  lemma NotLostAtEnd<E>(s: Setup<E>, rounds: seq<Round<E>>, k: Connection)
    ensures !LostAt(s, rounds, k, |rounds|)
  {
  }

  lemma {:induction false} RunGap<E>(s: Setup<E>, rounds: seq<Round<E>>, k: Connection)
    requires WithinLimits(s, rounds)
    ensures k in Gap(s, RunVars(s, rounds)) <==> Lost(s, rounds, k)
  {
    hide WithinLimits, DeltaOf, StepVars, Upset, Follows;
    if rounds != [] {
      hide Lost, LostAt;
      var m := |rounds| - 1;
      WithinLimitsStep(s, rounds);
      RunGap(s, rounds[..m], k);
      RunFollows(s, rounds[..m]);
      RoundGap(s, RunVars(s, rounds[..m]), rounds[m]);
      LostStep(s, rounds, k);
    }
  }

  /**
   Every run, whatever its clock, settings, networks and events: the sensor never holds more open
   than the collector, lacks exactly what was lost, and has the endpoints right.
   */
  lemma EveryRunIsFaithful<E(!new)>(s: Setup<E>, script: seq<Input<E>>, rounds: seq<Round<E>>)
    requires RoundsOf(s, script, rounds)
    ensures Follows(s, RunVars(s, rounds))
    ensures forall k :: k in Gap(s, RunVars(s, rounds)) <==> Lost(s, rounds, k)
  {
    hide RoundsOf, Follows, Gap, Lost, RunVars, WithinLimits;
    RoundsAreWithinLimits(s, script, rounds);
    RunFollows(s, rounds);
    forall k ensures k in Gap(s, RunVars(s, rounds)) <==> Lost(s, rounds, k) {
      RunGap(s, rounds, k);
    }
  }

  /** Round `j` withholds nothing and disturbs nothing. */
  predicate Quiet<E>(s: Setup<E>, rounds: seq<Round<E>>, j: int)
    requires 0 <= j < |rounds|
  {
    rounds[j].dropped == {} && Upset(s, RunVars(s, rounds[..j]), rounds[j]) == {}
  }

  lemma QuietIsComplete<E>(s: Setup<E>, rounds: seq<Round<E>>)
    requires WithinLimits(s, rounds) && forall j :: 0 <= j < |rounds| ==> Quiet(s, rounds, j)
    ensures Gap(s, RunVars(s, rounds)) == {}
  {
    hide RunVars, Gap, Upset, WithinLimits, Believes;
    forall k ensures k !in Gap(s, RunVars(s, rounds)) {
      RunGap(s, rounds, k);
      forall j | 0 <= j < |rounds| ensures !LostAt(s, rounds, k, j) {
        assert Quiet(s, rounds, j);
      }
    }
  }

  lemma UnquietLeavesGap<E>(s: Setup<E>, rounds: seq<Round<E>>, j: nat)
    requires WithinLimits(s, rounds) && j < |rounds| && !Quiet(s, rounds, j)
    ensures Gap(s, RunVars(s, rounds[..j + 1])) != {}
  {
    hide WithinLimits, Gap, DeltaOf, StepVars, Upset, Follows, Believes;
    var upTo := rounds[..j + 1];
    assert upTo[..j] == rounds[..j] && upTo[j] == rounds[j];
    PrefixWithinLimits(s, rounds, j + 1);
    WithinLimitsStep(s, upTo);
    RunFollows(s, upTo[..j]);
    RoundGap(s, RunVars(s, upTo[..j]), upTo[j]);
  }

  lemma PrefixWithinLimits<E>(s: Setup<E>, rounds: seq<Round<E>>, i: nat)
    requires WithinLimits(s, rounds) && i <= |rounds|
    ensures WithinLimits(s, rounds[..i])
  {
    hide RunVars, DeltaOf, LimitMet;
    assert forall j :: 0 <= j < i ==> rounds[..i][..j] == rounds[..j] && rounds[..i][j] == rounds[j];
  }

  lemma PrefixIsQuiet<E>(s: Setup<E>, rounds: seq<Round<E>>, i: nat)
    requires i <= |rounds| && forall j :: 0 <= j < |rounds| ==> Quiet(s, rounds, j)
    ensures forall j :: 0 <= j < i ==> Quiet(s, rounds[..i], j)
  {
    hide RunVars, Upset;
    forall j | 0 <= j < i ensures Quiet(s, rounds[..i], j) {
      assert rounds[..i][..j] == rounds[..j] && Quiet(s, rounds, j);
    }
  }

  /** In every run, the sensor and the collector agree all along if and only if every round is quiet. */
  lemma ViewsAgreeExactly<E(!new)>(s: Setup<E>, script: seq<Input<E>>, rounds: seq<Round<E>>)
    requires RoundsOf(s, script, rounds)
    ensures (forall i :: 0 <= i <= |rounds| ==> Gap(s, RunVars(s, rounds[..i])) == {}) <==>
            forall j :: 0 <= j < |rounds| ==> Quiet(s, rounds, j)
  {
    hide RoundsOf, RunVars, Gap, Quiet, WithinLimits;
    RoundsAreWithinLimits(s, script, rounds);
    if forall j :: 0 <= j < |rounds| ==> Quiet(s, rounds, j) {
      forall i | 0 <= i <= |rounds| ensures Gap(s, RunVars(s, rounds[..i])) == {} {
        PrefixWithinLimits(s, rounds, i);
        PrefixIsQuiet(s, rounds, i);
        QuietIsComplete(s, rounds[..i]);
      }
    } else {
      var j :| 0 <= j < |rounds| && !Quiet(s, rounds, j);
      UnquietLeavesGap(s, rounds, j);
    }
  }

  // ----- every message

  /** Remembered keys that the snapshot still shows and a change of the setting closes. */
  function OverruledKeys<T>(v: View<T>, c: Cycle<T>): set<T> {
    set k | k in v.past && k in c.snap && c.closes(k)
  }

  function Overruled<E>(s: Setup<E>, v: Vars<E>, r: Round<E>): set<Connection> {
    if s.afterglow then OverruledKeys(ViewOf(v), CycleOf(v, r)) else {}
  }

  /** The active connections of one container. */
  function OpensOf(m: StatusMap<Connection>, container: string): set<Connection> {
    set k | k in m && m[k].active && k.container == container
  }

  lemma OpensByContainer(m: StatusMap<Connection>)
    ensures forall c :: OpensOf(m, c) == Opens(m, ByContainer, c)
  {
  }

  /** All that is wanted is sent if the limit covers it, else as much as the limit; nothing if it is negative. */
  predicate Rationed(limit: int, wanted: nat, sent: nat) {
    sent == wanted <= limit || sent == limit < wanted || (limit < 0 && sent == 0)
  }

  /**
   A message sent in state `v`: there is something to tell; of every container all opens pass or as
   many as the limit allows, and no close is missing; nothing is opened that the sensor already holds
   open; every entry has the time last seen and the state the collector now believes, unless a change
   of the setting overrules it.
   */
  ghost predicate News<E(!new)>(s: Setup<E>, v: Vars<E>, r: Round<E>, m: Message<E>) {
    && (DeltaOf(s, v, r) != map[] || m.endpoints != map[])
    && (forall c :: Rationed(r.input.limit, |OpensOf(DeltaOf(s, v, r), c)|, |OpensOf(m.connections, c)|))
    && InactiveKeys(m.connections) == InactiveKeys(DeltaOf(s, v, r))
    && ActiveKeys(m.connections) !! OpenConnections(v.messages)
    && ActiveKeys(m.endpoints) !! OpenEndpoints(v.messages)
    && Dated(m.connections, r.snap, v.past, Believes(s, StepVars(s, v, r)), Overruled(s, v, r))
    && Dated(m.endpoints, r.endpoints, v.pastEndpoints, ActiveKeys(r.endpoints), {})
  }

  /**
   Every entry has the time of the snapshot, or else the remembered one, and is active if in `open`;
   one of `overruled` may instead be closed with the remembered time.
   */
  ghost predicate Dated<T>(m: StatusMap<T>, snap: StatusMap<T>, past: StatusMap<T>, open: set<T>, overruled: set<T>) {
    forall k :: k in m ==>
      && (k in snap || k in past)
      && (|| m[k] == Status(if k in snap then snap[k].time else past[k].time, k in open)
          || (k in overruled && k in past && m[k] == Status(past[k].time, false)))
  }

  lemma PlainDeltaIsDated<T>(snap: StatusMap<T>, past: StatusMap<T>)
    ensures Dated(PlainDelta(snap, past), snap, past, ActiveKeys(snap), {})
  {
  }

  lemma CycleDeltaIsDated<T>(v: View<T>, c: Cycle<T>, period: int)
    ensures Dated(CycleDelta(v, c, period), c.snap, v.past, Believed(Next(v, c, period), period), OverruledKeys(v, c))
  {
    forall k | k in CycleDelta(v, c, period)
      ensures k in c.snap || k in v.past
      ensures var m := CycleDelta(v, c, period)[k];
              || m == Status(if k in c.snap then c.snap[k].time else v.past[k].time,
                             k in Believed(Next(v, c, period), period))
              || (k in v.past && k in c.snap && c.closes(k) && m == Status(v.past[k].time, false))
    {
      EntryIsDated(v, c, period, k);
    }
  }

  lemma EntryIsDated<T>(v: View<T>, c: Cycle<T>, period: int, k: T)
    requires k in CycleDelta(v, c, period)
    ensures k in c.snap || k in v.past
    ensures var m := CycleDelta(v, c, period)[k];
            || m == Status(if k in c.snap then c.snap[k].time else v.past[k].time,
                           k in Believed(Next(v, c, period), period))
            || (k in v.past && k in c.snap && c.closes(k) && m == Status(v.past[k].time, false))
  {
    var entry := AfterglowEntry(Get(c.snap, k), Get(v.past, k), c.now, v.last, period);
    assert Get(AfterglowDelta(c.snap, v.past, c.now, v.last, period), k) == entry;
  }

  lemma WithheldIsDated<T>(delta: StatusMap<T>, dropped: set<T>, snap: StatusMap<T>, past: StatusMap<T>,
                           open: set<T>, overruled: set<T>)
    requires Dated(delta, snap, past, open, overruled)
    ensures Dated(Withhold(delta, dropped), snap, past, open, overruled)
  {
  }

  lemma DeltaIsDated<E>(s: Setup<E>, v: Vars<E>, r: Round<E>)
    ensures Dated(DeltaOf(s, v, r), r.snap, v.past, Believes(s, StepVars(s, v, r)), Overruled(s, v, r))
  {
    hide Dated, CycleDelta, PlainDelta, MessageOf, Next, RecentKeys, ActiveKeys, Closer, NextOld, Unclosed,
         OverruledKeys;
    if s.afterglow {
      ViewAfterRound(s, v, r);
      CycleDeltaIsDated(ViewOf(v), CycleOf(v, r), s.period);
    } else {
      PlainDeltaIsDated(r.snap, v.past);
    }
  }

  lemma MessageIsNews<E(!new)>(s: Setup<E>, v: Vars<E>, r: Round<E>)
    requires Follows(s, v) && LimitMet(DeltaOf(s, v, r), r.dropped, r.input.limit) && MessageOf(s, v, r).Some?
    ensures News(s, v, r, MessageOf(s, v, r).value)
  {
    hide DeltaOf, PlainDelta, Believes, StepVars, Withhold, Dated, Opens, OpenConnections, OpenEndpoints, Overruled,
         Gap, Upset, OpensOf;
    OpensByContainer(DeltaOf(s, v, r));
    OpensByContainer(Withhold(DeltaOf(s, v, r), r.dropped));
    RoundGap(s, v, r);
    DeltaIsDated(s, v, r);
    WithheldIsDated(DeltaOf(s, v, r), r.dropped, r.snap, v.past, Believes(s, StepVars(s, v, r)), Overruled(s, v, r));
    WithheldKeys(DeltaOf(s, v, r), r.dropped);
    PlainDeltaIsDated(r.endpoints, v.pastEndpoints);
    PlainDeltaReplays(r.endpoints, v.pastEndpoints);
  }

  /** Message `i` of the run is the message of round `j`, sent after the messages before it. */
  ghost predicate SentIn<E(!new)>(s: Setup<E>, rounds: seq<Round<E>>, i: nat, j: nat) {
    var messages := RunVars(s, rounds).messages;
    && j < |rounds| && i < |messages|
    && RunVars(s, rounds[..j]).messages == messages[..i]
    && MessageOf(s, RunVars(s, rounds[..j]), rounds[j]) == Some(messages[i])
    && News(s, RunVars(s, rounds[..j]), rounds[j], messages[i])
  }

  lemma SentEarlier<E(!new)>(s: Setup<E>, rounds: seq<Round<E>>, i: nat, j: nat)
    requires rounds != [] && SentIn(s, rounds[..|rounds| - 1], i, j)
    ensures SentIn(s, rounds, i, j)
  {
    hide News, DeltaOf, PastOf, MessageOf;
    var shorter := rounds[..|rounds| - 1];
    assert shorter[..j] == rounds[..j] && shorter[j] == rounds[j];
    assert RunVars(s, shorter).messages <= RunVars(s, rounds).messages;
  }

  lemma SentLast<E(!new)>(s: Setup<E>, rounds: seq<Round<E>>, i: nat)
    requires rounds != []
    requires var m := |rounds| - 1; var v := RunVars(s, rounds[..m]);
             && |v.messages| <= i < |RunVars(s, rounds).messages| && MessageOf(s, v, rounds[m]).Some?
             && News(s, v, rounds[m], MessageOf(s, v, rounds[m]).value)
    ensures SentIn(s, rounds, i, |rounds| - 1)
  {
    hide News, DeltaOf, PastOf, MessageOf;
  }

  lemma {:induction false} MessagesAreNews<E(!new)>(s: Setup<E>, rounds: seq<Round<E>>, i: nat)
    requires WithinLimits(s, rounds) && i < |RunVars(s, rounds).messages|
    ensures exists j :: SentIn(s, rounds, i, j)
    decreases |rounds|
  {
    hide WithinLimits, LimitMet, DeltaOf, Follows, News, SentIn, PastOf, MessageOf;
    assert rounds != [];
    var m := |rounds| - 1;
    var v := RunVars(s, rounds[..m]);
    WithinLimitsStep(s, rounds);
    if i < |v.messages| {
      MessagesAreNews(s, rounds[..m], i);
      var j :| SentIn(s, rounds[..m], i, j);
      SentEarlier(s, rounds, i, j);
    } else {
      RunFollows(s, rounds[..m]);
      MessageIsNews(s, v, rounds[m]);
      SentLast(s, rounds, i);
    }
  }

  /** Every run: each of its messages is news. */
  lemma EveryMessageIsNews<E(!new)>(s: Setup<E>, script: seq<Input<E>>, rounds: seq<Round<E>>, i: nat)
    requires RoundsOf(s, script, rounds) && i < |RunVars(s, rounds).messages|
    ensures exists j :: SentIn(s, rounds, i, j)
  {
    hide RoundsOf, RunVars, WithinLimits, SentIn;
    RoundsAreWithinLimits(s, script, rounds);
    MessagesAreNews(s, rounds, i);
  }

  // ----- what the sensor holds, from the snapshots

  function CyclesOf<E>(s: Setup<E>, rounds: seq<Round<E>>): seq<Cycle<Connection>> {
    if rounds == [] then []
    else
      var m := |rounds| - 1;
      CyclesOf(s, rounds[..m]) + [CycleOf(RunVars(s, rounds[..m]), rounds[m])]
  }

  /** With afterglow the loop is a run of cycles. */
  lemma {:induction false} ViewIsRun<E>(s: Setup<E>, rounds: seq<Round<E>>)
    requires s.afterglow
    ensures ViewOf(RunVars(s, rounds)) == Run(View(map[], s.start, {}), CyclesOf(s, rounds), s.period)
  {
    if rounds != [] {
      hide StepVars, Next, CycleOf, ViewOf, Run;
      var m := |rounds| - 1;
      var v := RunVars(s, rounds[..m]);
      ViewIsRun(s, rounds[..m]);
      ViewAfterRound(s, v, rounds[m]);
      RunOneMore(View(map[], s.start, {}), CyclesOf(s, rounds[..m]), CycleOf(v, rounds[m]), s.period);
    }
  }

  lemma RunOneMore<T>(v: View<T>, cycles: seq<Cycle<T>>, c: Cycle<T>, period: int)
    ensures Run(v, cycles + [c], period) == Next(Run(v, cycles, period), c, period)
  {
    hide Next;
    assert (cycles + [c])[..|cycles|] == cycles;
  }

  /** With afterglow, by the history of snapshots; without, by the last one. */
  ghost predicate SeenOpen<E>(s: Setup<E>, rounds: seq<Round<E>>, k: Connection) {
    if s.afterglow then OpenByHistory(CyclesOf(s, rounds), s.period, k)
    else rounds != [] && k in ActiveKeys(rounds[|rounds| - 1].snap)
  }

  lemma BelievedIsSeenOpen<E>(s: Setup<E>, rounds: seq<Round<E>>, k: Connection)
    ensures k in Believes(s, RunVars(s, rounds)) <==> SeenOpen(s, rounds, k)
  {
    hide MessageOf, DeltaOf, CyclesOf, Run, OpenByHistory, RunVars;
    if s.afterglow {
      ViewIsRun(s, rounds);
      BelievedByHistory(s.start, CyclesOf(s, rounds), s.period, k);
    } else {
      PastIsLastSnapshot(s, rounds);
    }
  }

  lemma PastIsLastSnapshot<E>(s: Setup<E>, rounds: seq<Round<E>>)
    requires !s.afterglow
    ensures RunVars(s, rounds).past == if rounds == [] then map[] else rounds[|rounds| - 1].snap
  {
    hide MessageOf;
  }

  /**
   End to end, after any run: a connection is open at the sensor exactly when the snapshots say so
   and it was not lost, that is, not withheld or disturbed in a round since which it has been open.
   */
  lemma SensorHoldsWhatWasSeen<E(!new)>(s: Setup<E>, script: seq<Input<E>>, rounds: seq<Round<E>>, k: Connection)
    requires RoundsOf(s, script, rounds)
    ensures k in OpenConnections(RunVars(s, rounds).messages) <==> SeenOpen(s, rounds, k) && !Lost(s, rounds, k)
  {
    hide RoundsOf, RunVars, OpenConnections, OpenEndpoints, Believes, SeenOpen, Lost;
    EveryRunIsFaithful(s, script, rounds);
    BelievedIsSeenOpen(s, rounds, k);
  }

  // ----- runs that disturb nothing

  /** The clock reading and the setting of the last input that reached the fetch. */
  function TimeBefore<E>(s: Setup<E>, script: seq<Input<E>>): int {
    if script == [] then s.start
    else if script[|script| - 1].scrape.Failed? then TimeBefore(s, script[..|script| - 1])
    else script[|script| - 1].now
  }

  function SettingBefore<E>(s: Setup<E>, script: seq<Input<E>>): ExternalIPs {
    if script == [] then s.initial
    else if script[|script| - 1].scrape.Failed? then SettingBefore(s, script[..|script| - 1])
    else script[|script| - 1].config
  }

  /** No tracked connection has the address that stands for the rest of the internet. */
  ghost predicate Real(state: StatusMap<Connection>) {
    forall k :: k in state ==> !IsCanonicalExternal(k.RemoteAddress())
  }

  /**
   Input `i` leaves the setting alone; or else the known networks do not overlap across families and
   no connection has the address that stands for the rest of the internet.
   */
  ghost predicate Harmless<E>(s: Setup<E>, before: seq<Input<E>>, i: Input<E>) {
    || i.config == SettingBefore(s, before)
    || (&& Sound(i.tables) && NoOverlap(i.tables.known, i.tables.known)
        && Real(FedConnections(ConnectionsAfter(s.connections, before), i)))
  }

  /** Of inputs that reach the fetch: the clock does not go back, and changes of the setting are harmless. */
  ghost predicate Regular<E>(s: Setup<E>, script: seq<Input<E>>) {
    forall n :: 0 <= n < |script| && !script[n].scrape.Failed? ==>
      TimeBefore(s, script[..n]) <= script[n].now && Harmless(s, script[..n], script[n])
  }

  lemma RegularStep<E>(s: Setup<E>, script: seq<Input<E>>)
    requires Regular(s, script) && script != []
    ensures var n := |script| - 1;
            && Regular(s, script[..n])
            && (!script[n].scrape.Failed? ==>
                TimeBefore(s, script[..n]) <= script[n].now && Harmless(s, script[..n], script[n]))
  {
    hide TimeBefore, Harmless;
    var shorter := script[..|script| - 1];
    assert forall n :: 0 <= n < |shorter| ==> shorter[..n] == script[..n] && shorter[n] == script[n];
  }

  lemma {:induction false} LastOfRun<E(!new)>(s: Setup<E>, script: seq<Input<E>>, rounds: seq<Round<E>>)
    requires RoundsOf(s, script, rounds)
    ensures RunVars(s, rounds).last == TimeBefore(s, script)
    ensures s.afterglow ==> RunVars(s, rounds).prev == SettingBefore(s, script)
    decreases |script|
  {
    hide Snapshots, LimitMet, DeltaOf, MessageOf, PastOf;
    if script != [] {
      var n := |script| - 1;
      LastOfRun(s, script[..n], if script[n].scrape.Failed? then rounds else rounds[..|rounds| - 1]);
    }
  }

  /** No key of the snapshot meets the closing test. */
  lemma SnapshotStaysOpen(state: StatusMap<Connection>, t: Tables, prev: ExternalIPs, config: ExternalIPs,
                          keep: Connection -> bool, snap: StatusMap<Connection>)
    requires Real(state) && Sound(t) && NoOverlap(t.known, t.known)
    requires Merged(state, Normalizer(t, config), keep, snap)
    ensures forall k :: k in snap ==> !Closer(t, prev, config)(k)
  {
    hide Sound, NoOverlap, IsCanonicalExternal, NormalizeConnection, Closes;
    forall k | k in snap ensures !Closer(t, prev, config)(k) {
      assert MergedAt(state, Normalizer(t, config), keep, k, Get(snap, k));
      var r :| r in state && keep(r) && Normalizer(t, config)(r) == k;
      FreshConnectionsStayOpen(t, prev, config, r);
    }
  }

  lemma SameSettingClosesNothing(t: Tables, config: ExternalIPs, k: Connection)
    ensures !Closer(t, config, config)(k)
  {
  }

  lemma RoundIsOrderly<E(!new)>(s: Setup<E>, before: seq<Input<E>>, v: Vars<E>, r: Round<E>)
    requires Snapshots(s, before, r) && Harmless(s, before, r.input) && v.last <= r.input.now
    requires v.prev == SettingBefore(s, before)
    ensures Orderly(ViewOf(v), CycleOf(v, r))
  {
    hide Merged, Closer, FedConnections, FedEndpoints, Real, Sound, NoOverlap;
    if r.input.config == v.prev {
      forall k | k in r.snap ensures !Closer(r.input.tables, v.prev, r.input.config)(k) {
        SameSettingClosesNothing(r.input.tables, v.prev, k);
      }
    } else {
      SnapshotStaysOpen(FedConnections(ConnectionsAfter(s.connections, before), r.input),
                        r.input.tables, v.prev, r.input.config, r.input.fetches, r.snap);
    }
  }

  lemma OrderlyIsQuiet<E>(s: Setup<E>, v: Vars<E>, r: Round<E>)
    requires Orderly(ViewOf(v), CycleOf(v, r))
    ensures Upset(s, v, r) == {} && Overruled(s, v, r) == {}
  {
    hide Closer, DisturbedKeys;
    OrderlyIsUndisturbed(ViewOf(v), CycleOf(v, r), s.period);
  }

  predicate Undisturbed<E>(s: Setup<E>, rounds: seq<Round<E>>) {
    forall j :: 0 <= j < |rounds| ==>
      var v := RunVars(s, rounds[..j]); Upset(s, v, rounds[j]) == {} && Overruled(s, v, rounds[j]) == {}
  }

  lemma UndisturbedStep<E>(s: Setup<E>, rounds: seq<Round<E>>)
    requires rounds != [] && Undisturbed(s, rounds[..|rounds| - 1])
    requires var m := |rounds| - 1; var v := RunVars(s, rounds[..m]);
             Upset(s, v, rounds[m]) == {} && Overruled(s, v, rounds[m]) == {}
    ensures Undisturbed(s, rounds)
  {
    hide RunVars, Upset, Overruled;
    var shorter := rounds[..|rounds| - 1];
    forall j | 0 <= j < |rounds|
      ensures var v := RunVars(s, rounds[..j]); Upset(s, v, rounds[j]) == {} && Overruled(s, v, rounds[j]) == {}
    {
      if j < |shorter| {
        assert shorter[..j] == rounds[..j] && shorter[j] == rounds[j];
      }
    }
  }

  lemma OrderlyExtend<T>(v: View<T>, cycles: seq<Cycle<T>>, c: Cycle<T>, period: int)
    requires OrderlyRun(v, cycles, period) && Orderly(Run(v, cycles, period), c)
    ensures OrderlyRun(v, cycles + [c], period)
  {
    hide Orderly, Next;
    var longer := cycles + [c];
    forall i | 0 <= i < |longer| ensures Orderly(Run(v, longer[..i], period), longer[i]) {
      assert longer[..i] == if i < |cycles| then cycles[..i] else cycles;
    }
  }

  /** Every regular run with afterglow is an orderly run of cycles, and disturbs nothing. */
  lemma {:induction false} CyclesAreOrderly<E(!new)>(s: Setup<E>, script: seq<Input<E>>, rounds: seq<Round<E>>)
    requires s.afterglow && Regular(s, script) && RoundsOf(s, script, rounds)
    ensures OrderlyRun(View(map[], s.start, {}), CyclesOf(s, rounds), s.period)
    ensures Undisturbed(s, rounds)
    decreases |script|
  {
    if script == [] {
      hide Regular;
    } else {
      hide Regular, Snapshots, LimitMet, DeltaOf, Orderly, OrderlyRun, ViewOf, CycleOf, StepVars, Next, Run,
           Undisturbed, Upset, Overruled, TimeBefore, SettingBefore;
      var n, m := |script| - 1, |rounds| - 1;
      RegularStep(s, script);
      if script[n].scrape.Failed? {
        CyclesAreOrderly(s, script[..n], rounds);
      } else {
        var v := RunVars(s, rounds[..m]);
        CyclesAreOrderly(s, script[..n], rounds[..m]);
        LastOfRun(s, script[..n], rounds[..m]);
        RoundIsOrderly(s, script[..n], v, rounds[m]);
        OrderlyIsQuiet(s, v, rounds[m]);
        UndisturbedStep(s, rounds);
        ViewIsRun(s, rounds[..m]);
        OrderlyExtend(View(map[], s.start, {}), CyclesOf(s, rounds[..m]), CycleOf(v, rounds[m]), s.period);
      }
    }
  }

  lemma {:induction false} NothingWithheld<E>(s: Setup<E>, rounds: seq<Round<E>>)
    requires RunVars(s, rounds).withheld == 0
    ensures forall j :: 0 <= j < |rounds| ==> rounds[j].dropped == {}
  {
    if rounds != [] {
      hide MessageOf, PastOf;
      var m := |rounds| - 1;
      NothingWithheld(s, rounds[..m]);
      forall j | 0 <= j < |rounds| ensures rounds[j].dropped == {} {
        assert j < m ==> rounds[..m][j] == rounds[j];
      }
    }
  }

  /**
   In a regular run with afterglow, and in every run without, only the limit can lose a connection:
   while it has withheld nothing, the sensor holds open exactly what the collector does.
   */
  lemma RegularRunIsExact<E(!new)>(s: Setup<E>, script: seq<Input<E>>, rounds: seq<Round<E>>)
    requires RoundsOf(s, script, rounds) && (s.afterglow ==> Regular(s, script))
    ensures Undisturbed(s, rounds)
    ensures RunVars(s, rounds).withheld == 0 ==>
            OpenConnections(RunVars(s, rounds).messages) == Believes(s, RunVars(s, rounds))
  {
    hide RoundsOf, Regular, RunVars, WithinLimits, OpenConnections, OpenEndpoints, Believes, DisturbedKeys, CycleOf;
    if s.afterglow {
      CyclesAreOrderly(s, script, rounds);
    }
    RoundsAreWithinLimits(s, script, rounds);
    RunFollows(s, rounds);
    if RunVars(s, rounds).withheld == 0 {
      NothingWithheld(s, rounds);
      QuietIsComplete(s, rounds);
      forall k | k in Believes(s, RunVars(s, rounds)) ensures k in OpenConnections(RunVars(s, rounds).messages) {
        assert k !in Gap(s, RunVars(s, rounds));
      }
    }
  }

  // ----- a condition on each input alone

  ghost predicate RealEvents(events: seq<Event<Connection>>) {
    forall e :: e in events ==> !IsCanonicalExternal(e.key.RemoteAddress())
  }

  ghost predicate Admissible<E>(i: Input<E>) {
    && Sound(i.tables) && NoOverlap(i.tables.known, i.tables.known)
    && RealEvents(i.events) && RealEvents(i.lateEvents)
    && (i.scrape.Listed? ==> forall c :: c in i.scrape.connections ==> !IsCanonicalExternal(c.RemoteAddress()))
  }

  lemma {:induction false} AppliedStaysReal(state: StatusMap<Connection>, events: seq<Event<Connection>>)
    requires Real(state) && RealEvents(events)
    ensures Real(Applied(state, events))
  {
    hide IsCanonicalExternal;
    if events != [] {
      AppliedStaysReal(state, events[..|events| - 1]);
    }
  }

  lemma FedStaysReal<E>(state: StatusMap<Connection>, i: Input<E>)
    requires Real(state) && Admissible(i)
    ensures Real(FedConnections(state, i))
  {
    hide IsCanonicalExternal, Applied, RealEvents;
    AppliedStaysReal(state, i.events);
    var reported := Applied(state, i.events);
    AppliedStaysReal(reported, i.lateEvents);
    if i.scrape.Listed? {
      AppliedStaysReal(ScrapedState(reported, i.scrape.connections, i.scrapeTime), i.lateEvents);
    }
  }

  lemma {:induction false} AlwaysReal<E>(state: StatusMap<Connection>, script: seq<Input<E>>)
    requires Real(state) && forall i :: i in script ==> Admissible(i)
    ensures Real(ConnectionsAfter(state, script))
  {
    hide Admissible, FedConnections;
    if script != [] {
      var n := |script| - 1;
      AlwaysReal(state, script[..n]);
      FedStaysReal(ConnectionsAfter(state, script[..n]), script[n]);
    }
  }

  /** Admissible inputs with an ordered clock make a regular run, whatever settings they change. */
  lemma AdmissibleIsRegular<E>(s: Setup<E>, script: seq<Input<E>>)
    requires Real(s.connections) && forall i :: i in script ==> Admissible(i)
    requires forall n :: 0 <= n < |script| && !script[n].scrape.Failed? ==> TimeBefore(s, script[..n]) <= script[n].now
    ensures Regular(s, script)
  {
    hide Real, TimeBefore, FedConnections, Sound, NoOverlap, RealEvents, ConnectionsAfter;
    forall n | 0 <= n < |script| ensures Harmless(s, script[..n], script[n]) {
      AlwaysReal(s.connections, script[..n]);
      FedStaysReal(ConnectionsAfter(s.connections, script[..n]), script[n]);
    }
  }
}
