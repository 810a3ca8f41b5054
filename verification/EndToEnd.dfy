/**
 From what was reported and listed to what the sensor holds open: the snapshots of a run in terms of
 its inputs alone, and what that means at the sensor.
 */
module EndToEnd {
  import opened ConnStatus
  import opened DeltaReporting
  import opened Normalization
  import opened Notifier
  import opened Options
  import opened PrefixMatch
  import opened Networks
  import opened SensorView
  import opened Tracker
  import opened WholeRuns

  // ----- what a snapshot shows

  /** The raw connection `c` is fetched by an input and reported under `k`. */
  predicate ReportedUnder<E>(i: Input<E>, c: Connection, k: Connection) {
    i.fetches(c) && NormalizeConnection(i.tables, i.config, c) == k
  }

  /** Heard as active. */
  ghost predicate HearsOpen<E>(state: StatusMap<Connection>, i: Input<E>, c: Connection) {
    exists t :: Hears(state, i, c, Status(t, true))
  }

  lemma HeardIsFed<E>(state: StatusMap<Connection>, i: Input<E>, c: Connection)
    ensures c in FedConnections(state, i) ==> Hears(state, i, c, FedConnections(state, i)[c])
    ensures forall s :: Hears(state, i, c, s) ==> c in FedConnections(state, i) && FedConnections(state, i)[c] == s
  {
    hide FedConnections, Hears;
    if c in FedConnections(state, i) {
      FetchHears(state, i, c, FedConnections(state, i)[c]);
    }
    forall s ensures Hears(state, i, c, s) ==> c in FedConnections(state, i) && FedConnections(state, i)[c] == s {
      FetchHears(state, i, c, s);
    }
  }

  /** The status of a key in a snapshot is the greatest that was heard of the connections reported under it. */
  lemma SnapshotIsHeard<E(!new)>(s: Setup<E>, before: seq<Input<E>>, r: Round<E>, k: Connection)
    requires Snapshots(s, before, r)
    ensures var state := ConnectionsAfter(s.connections, before);
            match Get(r.snap, k)
            case None => forall c, st :: ReportedUnder(r.input, c, k) ==> !Hears(state, r.input, c, st)
            case Some(best) =>
              && (exists c :: ReportedUnder(r.input, c, k) && Hears(state, r.input, c, best))
              && (forall c, st :: ReportedUnder(r.input, c, k) && Hears(state, r.input, c, st) ==> AtMost(st, best))
  {
    hide FedConnections, Hears, ConnectionsAfter, NormalizeConnection, FedEndpoints, AtMost;
    var state := ConnectionsAfter(s.connections, before);
    var fed := FedConnections(state, r.input);
    assert MergedAt(fed, Normalizer(r.input.tables, r.input.config), r.input.fetches, k, Get(r.snap, k));
    forall c, st | ReportedUnder(r.input, c, k) && Hears(state, r.input, c, st)
      ensures c in fed && fed[c] == st
    {
      HeardIsFed(state, r.input, c);
    }
    if k in r.snap {
      var c :| && c in fed && r.input.fetches(c) && fed[c] == r.snap[k]
               && Normalizer(r.input.tables, r.input.config)(c) == k;
      HeardIsFed(state, r.input, c);
      assert ReportedUnder(r.input, c, k);
    }
  }

  lemma HeardIsShown<E(!new)>(s: Setup<E>, before: seq<Input<E>>, r: Round<E>, c: Connection, k: Connection, st: Status)
    requires Snapshots(s, before, r) && ReportedUnder(r.input, c, k)
    requires Hears(ConnectionsAfter(s.connections, before), r.input, c, st)
    ensures k in r.snap && AtMost(st, r.snap[k])
  {
    hide FedConnections, FedEndpoints, Hears, ConnectionsAfter, NormalizeConnection, AtMost;
    var state := ConnectionsAfter(s.connections, before);
    var fed := FedConnections(state, r.input);
    HeardIsFed(state, r.input, c);
    assert c in fed && fed[c] == st;
    assert MergedAt(fed, Normalizer(r.input.tables, r.input.config), r.input.fetches, k, Get(r.snap, k));
  }

  /** So a key is active in a snapshot exactly when a connection reported under it is heard as active. */
  lemma ActiveWhenHeard<E(!new)>(s: Setup<E>, before: seq<Input<E>>, r: Round<E>, k: Connection)
    requires Snapshots(s, before, r)
    ensures k in ActiveKeys(r.snap) <==>
            exists c :: ReportedUnder(r.input, c, k) && HearsOpen(ConnectionsAfter(s.connections, before), r.input, c)
  {
    hide Snapshots, Hears, ConnectionsAfter, ReportedUnder;
    SnapshotIsHeard(s, before, r, k);
    var state := ConnectionsAfter(s.connections, before);
    if k in ActiveKeys(r.snap) {
      var c :| ReportedUnder(r.input, c, k) && Hears(state, r.input, c, r.snap[k]);
      assert r.snap[k] == Status(r.snap[k].time, true);
      assert HearsOpen(state, r.input, c);
    }
    if c :| ReportedUnder(r.input, c, k) && HearsOpen(state, r.input, c) {
      var t :| Hears(state, r.input, c, Status(t, true));
      HeardIsShown(s, before, r, c, k, Status(t, true));
    }
  }

  /** What is carried from one input to the next: after a fetch only what was heard as active. */
  lemma CarriedOver<E(!new)>(state: StatusMap<Connection>, script: seq<Input<E>>, c: Connection, st: Status)
    requires script != []
    ensures var n := |script| - 1;
            Get(ConnectionsAfter(state, script), c) == Some(st) <==>
            && Hears(ConnectionsAfter(state, script[..n]), script[n], c, st)
            && (st.active || script[n].scrape.Failed?)
  {
    hide FedConnections, Hears;
    var n := |script| - 1;
    FetchHears(ConnectionsAfter(state, script[..n]), script[n], c, st);
  }

  // ----- the rounds and their inputs

  lemma {:induction false} RoundHasInput<E(!new)>(s: Setup<E>, script: seq<Input<E>>, rounds: seq<Round<E>>, j: nat)
    returns (n: nat)
    requires RoundsOf(s, script, rounds) && j < |rounds|
    ensures n < |script| && !script[n].scrape.Failed? && rounds[j].input == script[n]
    ensures Snapshots(s, script[..n], rounds[j])
    decreases |script|
  {
    hide Snapshots, LimitMet, DeltaOf, RunVars;
    n := |script| - 1;
    var m := |rounds| - 1;
    if script[n].scrape.Failed? {
      var last := n;
      n := RoundHasInput(s, script[..last], rounds, j);
      assert script[..last][..n] == script[..n];
    } else if j < m {
      var last := n;
      n := RoundHasInput(s, script[..last], rounds[..m], j);
      assert script[..last][..n] == script[..n];
    }
  }

  lemma LastRound<E(!new)>(s: Setup<E>, script: seq<Input<E>>, rounds: seq<Round<E>>)
    requires RoundsOf(s, script, rounds) && script != [] && !script[|script| - 1].scrape.Failed?
    ensures rounds != [] && rounds[|rounds| - 1].input == script[|script| - 1]
    ensures Snapshots(s, script[..|script| - 1], rounds[|rounds| - 1])
  {
    hide Snapshots, LimitMet, DeltaOf, RunVars;
  }

  lemma {:induction false} SnapshotsOfCycles<E>(s: Setup<E>, rounds: seq<Round<E>>)
    ensures |CyclesOf(s, rounds)| == |rounds|
    ensures forall j :: 0 <= j < |rounds| ==> CyclesOf(s, rounds)[j].snap == rounds[j].snap
  {
    hide RunVars, Closer;
    if rounds != [] {
      SnapshotsOfCycles(s, rounds[..|rounds| - 1]);
    }
  }

  // ----- at the sensor

  lemma ActiveIsSeenOpen<E>(s: Setup<E>, rounds: seq<Round<E>>, k: Connection)
    requires rounds != [] && k in ActiveKeys(rounds[|rounds| - 1].snap)
    ensures SeenOpen(s, rounds, k)
  {
    hide CyclesOf;
    SnapshotsOfCycles(s, rounds);
    assert Kept(CyclesOf(s, rounds), s.period, k, |rounds| - 1);
  }

  /**
   After a run whose last input reached the fetch, every connection that input leaves active, by
   report or by listing, is open at the sensor under its key, or its key was lost.
   */
  lemma HeardIsOpen<E(!new)>(s: Setup<E>, script: seq<Input<E>>, rounds: seq<Round<E>>, c: Connection, k: Connection)
    requires RoundsOf(s, script, rounds) && script != [] && !script[|script| - 1].scrape.Failed?
    requires var n := |script| - 1;
             && ReportedUnder(script[n], c, k)
             && HearsOpen(ConnectionsAfter(s.connections, script[..n]), script[n], c)
    ensures k in OpenConnections(RunVars(s, rounds).messages) || Lost(s, rounds, k)
  {
    hide RoundsOf, Snapshots, RunVars, OpenConnections, ReportedUnder, HearsOpen, ConnectionsAfter, SeenOpen, Lost;
    LastRound(s, script, rounds);
    ActiveWhenHeard(s, script[..|script| - 1], rounds[|rounds| - 1], k);
    ActiveIsSeenOpen(s, rounds, k);
    SensorHoldsWhatWasSeen(s, script, rounds, k);
  }

  /** Without afterglow, what is open is exactly what the last such input leaves active, less what was lost. */
  lemma PlainOpenIsHeard<E(!new)>(s: Setup<E>, script: seq<Input<E>>, rounds: seq<Round<E>>, k: Connection)
    requires RoundsOf(s, script, rounds) && script != [] && !script[|script| - 1].scrape.Failed? && !s.afterglow
    ensures var n := |script| - 1;
            k in OpenConnections(RunVars(s, rounds).messages) <==>
            && (exists c :: ReportedUnder(script[n], c, k)
                            && HearsOpen(ConnectionsAfter(s.connections, script[..n]), script[n], c))
            && !Lost(s, rounds, k)
  {
    hide RoundsOf, Snapshots, RunVars, OpenConnections, ReportedUnder, HearsOpen, ConnectionsAfter, Lost;
    LastRound(s, script, rounds);
    ActiveWhenHeard(s, script[..|script| - 1], rounds[|rounds| - 1], k);
    SensorHoldsWhatWasSeen(s, script, rounds, k);
  }

  // ----- endpoints

  ghost predicate EndpointReportedUnder<E>(i: Input<E>, e: E, k: E) {
    i.fetchesEndpoint(e) && i.normalizesEndpoint(e) == k
  }

  ghost predicate HearsEndpointOpen<E>(state: StatusMap<E>, i: Input<E>, e: E) {
    exists t :: HearsEndpoint(state, i, e, Status(t, true))
  }

  lemma EndpointHeardIsFed<E(!new)>(state: StatusMap<E>, i: Input<E>, e: E)
    ensures HearsEndpointOpen(state, i, e) <==> e in FedEndpoints(state, i) && FedEndpoints(state, i)[e].active
  {
    hide FedEndpoints, HearsEndpoint;
    var fed := FedEndpoints(state, i);
    forall t ensures HearsEndpoint(state, i, e, Status(t, true)) <==> Get(fed, e) == Some(Status(t, true)) {
      FetchHearsEndpoint(state, i, e, Status(t, true));
    }
    if e in fed && fed[e].active {
      assert Get(fed, e) == Some(Status(fed[e].time, true));
    }
  }

  /** After a run whose last input reached the fetch, the open endpoints are those that input leaves active. */
  lemma OpenEndpointsAreHeard<E(!new)>(s: Setup<E>, script: seq<Input<E>>, rounds: seq<Round<E>>, k: E)
    requires RoundsOf(s, script, rounds) && script != [] && !script[|script| - 1].scrape.Failed?
    ensures var n := |script| - 1;
            k in OpenEndpoints(RunVars(s, rounds).messages) <==>
            exists e :: EndpointReportedUnder(script[n], e, k)
                        && HearsEndpointOpen(EndpointsAfter(s.endpoints, script[..n]), script[n], e)
  {
    hide RoundsOf, Snapshots, RunVars, OpenEndpoints, OpenConnections, EndpointReportedUnder, HearsEndpointOpen,
         EndpointsAfter, Lost, Gap, Believes;
    LastRound(s, script, rounds);
    EveryRunIsFaithful(s, script, rounds);
    LastEndpoints(s, rounds);
    ActiveEndpoints(s, script[..|script| - 1], rounds[|rounds| - 1], k);
  }

  lemma LastEndpoints<E>(s: Setup<E>, rounds: seq<Round<E>>)
    requires rounds != []
    ensures RunVars(s, rounds).pastEndpoints == rounds[|rounds| - 1].endpoints
  {
    hide MessageOf, PastOf;
  }

  lemma ActiveEndpoints<E(!new)>(s: Setup<E>, before: seq<Input<E>>, r: Round<E>, k: E)
    requires Snapshots(s, before, r)
    ensures k in ActiveKeys(r.endpoints) <==>
            exists e :: EndpointReportedUnder(r.input, e, k)
                        && HearsEndpointOpen(EndpointsAfter(s.endpoints, before), r.input, e)
  {
    hide FedConnections, FedEndpoints, ConnectionsAfter, EndpointsAfter, HearsEndpointOpen, Normalizer;
    var state := EndpointsAfter(s.endpoints, before);
    var fed := FedEndpoints(state, r.input);
    assert MergedAt(fed, r.input.normalizesEndpoint, r.input.fetchesEndpoint, k, Get(r.endpoints, k));
    forall e ensures HearsEndpointOpen(state, r.input, e) <==> e in fed && fed[e].active {
      EndpointHeardIsFed(state, r.input, e);
    }
    if k in ActiveKeys(r.endpoints) {
      var e :| e in fed && r.input.fetchesEndpoint(e) && r.input.normalizesEndpoint(e) == k && fed[e] == r.endpoints[k];
      assert EndpointReportedUnder(r.input, e, k) && HearsEndpointOpen(state, r.input, e);
    }
  }

  // ----- nothing out of the blue

  /** An input mentions a connection: it reports it, lists it, or reports it late. */
  ghost predicate MentionedBy<E>(i: Input<E>, c: Connection) {
    || (exists e :: e in i.events && e.key == c)
    || (exists e :: e in i.lateEvents && e.key == c)
    || (i.scrape.Listed? && c in i.scrape.connections)
  }

  lemma FedIsMentioned<E>(state: StatusMap<Connection>, i: Input<E>, c: Connection)
    requires c in FedConnections(state, i) && c !in state
    ensures MentionedBy(i, c)
  {
    hide FedConnections, FirstOfLatest;
    HeardIsFed(state, i, c);
    var s := FedConnections(state, i)[c];
    assert Hears(state, i, c, s);
    var before, after := History(state, i.events, c), ReportsAfter(i);
    var j :| HeardAt(before, i.scrape.Listed?, after, c, s, j);
    assert before == i.events;
    if j < |before| {
      assert i.events[j] in i.events;
    } else {
      var e := after[j - |before|];
      assert e in after && e.key == c;
      if i.scrape.Listed? {
        var listing := Listing(i.scrape.connections, i.scrapeTime);
        if j - |before| < |listing| {
          assert i.scrape.connections[j - |before|] == c;
        } else {
          assert e == i.lateEvents[j - |before| - |listing|];
        }
      }
    }
  }

  lemma {:induction false} TrackedWasMentioned<E>(state: StatusMap<Connection>, script: seq<Input<E>>, c: Connection)
    requires c in ConnectionsAfter(state, script) && c !in state
    ensures exists m :: 0 <= m < |script| && MentionedBy(script[m], c)
  {
    hide FedConnections, MentionedBy;
    var n := |script| - 1;
    var before := ConnectionsAfter(state, script[..n]);
    if c in before {
      TrackedWasMentioned(state, script[..n], c);
      var m :| 0 <= m < n && MentionedBy(script[..n][m], c);
      assert MentionedBy(script[m], c);
    } else {
      FedIsMentioned(before, script[n], c);
    }
  }

  /** Some input fetched `c` under `k`, and `c` was tracked from the start or mentioned by then. */
  ghost predicate WasHeard<E>(s: Setup<E>, script: seq<Input<E>>, n: int, c: Connection, k: Connection) {
    && 0 <= n < |script| && ReportedUnder(script[n], c, k)
    && (c in s.connections || exists m :: 0 <= m <= n && MentionedBy(script[m], c))
  }

  lemma SnapshotWasHeard<E(!new)>(s: Setup<E>, script: seq<Input<E>>, n: nat, r: Round<E>, k: Connection)
    requires n < |script| && r.input == script[n] && Snapshots(s, script[..n], r) && k in r.snap
    ensures exists c :: WasHeard(s, script, n, c, k)
  {
    hide FedConnections, FedEndpoints, ConnectionsAfter, MentionedBy, NormalizeConnection;
    var state := ConnectionsAfter(s.connections, script[..n]);
    var fed := FedConnections(state, r.input);
    assert MergedAt(fed, Normalizer(r.input.tables, r.input.config), r.input.fetches, k, Get(r.snap, k));
    var c :| c in fed && r.input.fetches(c) && Normalizer(r.input.tables, r.input.config)(c) == k;
    assert ReportedUnder(script[n], c, k);
    if c !in s.connections {
      if c in state {
        TrackedWasMentioned(s.connections, script[..n], c);
        var m :| 0 <= m < n && MentionedBy(script[..n][m], c);
        assert MentionedBy(script[m], c);
      } else {
        FedIsMentioned(state, script[n], c);
      }
    }
    assert WasHeard(s, script, n, c, k);
  }

  /** In every run, nothing is open at the sensor that no input ever mentioned. */
  lemma OpenWasHeard<E(!new)>(s: Setup<E>, script: seq<Input<E>>, rounds: seq<Round<E>>, k: Connection)
    requires RoundsOf(s, script, rounds) && k in OpenConnections(RunVars(s, rounds).messages)
    ensures exists n, c :: WasHeard(s, script, n, c, k)
  {
    hide RoundsOf, Snapshots, RunVars, OpenConnections, Lost, WasHeard, CyclesOf;
    SensorHoldsWhatWasSeen(s, script, rounds, k);
    SnapshotsOfCycles(s, rounds);
    var j: nat;
    if s.afterglow {
      j :| Kept(CyclesOf(s, rounds), s.period, k, j);
    } else {
      j := |rounds| - 1;
    }
    var n := RoundHasInput(s, script, rounds, j);
    SnapshotWasHeard(s, script, n, rounds[j], k);
  }

  // ----- a change of the setting

  /**
   A remembered connection to which a change of the setting gives another key is reported closed,
   forgotten and no longer open at the sensor, unless the snapshot has its old key.
   */
  lemma RekeyedIsClosed<E>(s: Setup<E>, v: Vars<E>, r: Round<E>, c: Connection)
    requires s.afterglow && Sound(r.input.tables) && NoOverlap(r.input.tables.known, r.input.tables.known)
    requires !IsCanonicalExternal(c.RemoteAddress()) && c.RemoteAddress().family != Unknown
    requires var k := NormalizeConnection(r.input.tables, v.prev, c);
             k in v.past && k !in r.snap && k != NormalizeConnection(r.input.tables, r.input.config, c)
    ensures var k, v' := NormalizeConnection(r.input.tables, v.prev, c), StepVars(s, v, r);
            k in InactiveKeys(DeltaOf(s, v, r)) && k !in v'.past && k !in OpenConnections(v'.messages)
  {
    hide NormalizeConnection, Sound, NoOverlap, IsCanonicalExternal, CycleDelta, Next, InactiveKeys, StepVars, Closes,
         OpenConnections, Withhold;
    var k := NormalizeConnection(r.input.tables, v.prev, c);
    ChangedConnectionsAreClosed(r.input.tables, v.prev, r.input.config, c);
    ClosedConnectionsAreReported(ViewOf(v), CycleOf(v, r), s.period, k);
    WithheldKeys(CycleDelta(ViewOf(v), CycleOf(v, r), s.period), r.dropped);
    ViewAfterRound(s, v, r);
  }

  /** One to which it does not is left alone by the change. */
  lemma SameKeyStays<E>(v: Vars<E>, r: Round<E>, c: Connection)
    requires Sound(r.input.tables) && NoOverlap(r.input.tables.known, r.input.tables.known)
    requires !IsCanonicalExternal(c.RemoteAddress()) && c.RemoteAddress().family != Unknown
    requires NormalizeConnection(r.input.tables, v.prev, c) == NormalizeConnection(r.input.tables, r.input.config, c)
    ensures !CycleOf(v, r).closes(NormalizeConnection(r.input.tables, v.prev, c))
  {
    hide NormalizeConnection, Sound, NoOverlap, IsCanonicalExternal, Closes;
    ChangedConnectionsAreClosed(r.input.tables, v.prev, r.input.config, c);
  }
}
