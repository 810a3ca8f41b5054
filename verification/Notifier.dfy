/**
 The reporting loop: kernel events and scrapes feed the trackers, each cycle sends what changed.
 The sensor is whatever the delivered messages make of it.
 */
module Notifier {
  import opened ConnStatus
  import opened DeltaReporting
  import opened Emission
  import opened Normalization
  import opened Options
  import opened SensorView
  import opened Tracker

  datatype Message<E> = Message(connections: StatusMap<Connection>, endpoints: StatusMap<E>)

  /** The sensor's open connections after a sequence of messages. */
  function OpenConnections<E>(messages: seq<Message<E>>): set<Connection> {
    if messages == [] then {}
    else Replay(OpenConnections(messages[..|messages| - 1]), messages[|messages| - 1].connections)
  }

  function OpenEndpoints<E>(messages: seq<Message<E>>): set<E> {
    if messages == [] then {}
    else Replay(OpenEndpoints(messages[..|messages| - 1]), messages[|messages| - 1].endpoints)
  }

  datatype Scrape<E> = Off | Failed | Listed(connections: seq<Connection>, endpoints: seq<E>)

  /**
   Everything one iteration of the loop takes from outside; late events arrive between the scrape
   and the fetch.
   */
  datatype Input<!E> = Input(
    events: seq<Event<Connection>>,
    scrape: Scrape<E>,
    lateEvents: seq<Event<Connection>>,
    scrapeTime: Micros,
    now: int,
    tables: Tables,
    config: ExternalIPs,
    fetches: Connection -> bool,
    fetchesEndpoint: E -> bool,
    normalizesEndpoint: E -> E,
    limit: int,
    delivered: bool)

  function Normalizer(t: Tables, config: ExternalIPs): Connection -> Connection {
    c => NormalizeConnection(t, config, c)
  }

  function Closer(t: Tables, prev: ExternalIPs, config: ExternalIPs): Connection -> bool {
    c => Closes(t, prev, config, c)
  }

  // ----- closing on a change of the setting

  lemma UnclosedTwice<T>(past: StatusMap<T>, p: T -> bool, q: T -> bool, both: T -> bool)
    requires forall k :: k in past ==> (both(k) <==> p(k) || q(k))
    ensures Unclosed(Unclosed(past, p), q) == Unclosed(past, both)
  {
  }

  lemma ClosingTwice<T>(past: StatusMap<T>, delta: StatusMap<T>, p: T -> bool, q: T -> bool, both: T -> bool)
    requires forall k :: k in past ==> (both(k) <==> p(k) || q(k))
    ensures ClosedDelta(Unclosed(past, p), ClosedDelta(past, delta, p), q) == ClosedDelta(past, delta, both)
  {
    var one, two := ClosedDelta(past, delta, p), ClosedDelta(past, delta, both);
    var twice := ClosedDelta(Unclosed(past, p), one, q);
    assert twice.Keys == two.Keys;
  }

  lemma ClosingNothing<T>(past: StatusMap<T>, delta: StatusMap<T>, p: T -> bool)
    requires forall k :: k in past ==> !p(k)
    ensures Unclosed(past, p) == past && ClosedDelta(past, delta, p) == delta
  {
  }

  /** One pass over outgoing and one over incoming connections, each only if its setting changed. */
  method CloseOnConfigChange(t: Tables, prev: ExternalIPs, config: ExternalIPs,
                             past: StatusMap<Connection>, delta: StatusMap<Connection>)
    returns (past': StatusMap<Connection>, delta': StatusMap<Connection>)
    ensures past' == Unclosed(past, Closer(t, prev, config))
    ensures delta' == ClosedDelta(past, delta, Closer(t, prev, config))
  {
    hide ClosedDelta, Unclosed, ShouldClose;
    var outgoing: Connection -> bool := c => ClosedOutgoing(t, prev, config, c);
    var incoming: Connection -> bool := c => ClosedIncoming(t, prev, config, c);
    past', delta' := past, delta;
    if config.egress != prev.egress {
      past', delta' := CloseConnections(past', delta', outgoing);
    } else {
      ClosingNothing(past, delta, outgoing);
    }
    ghost var past1, delta1 := past', delta';
    if config.ingress != prev.ingress {
      past', delta' := CloseConnections(past', delta', incoming);
    } else {
      ClosingNothing(past1, delta1, incoming);
    }
    UnclosedTwice(past, outgoing, incoming, Closer(t, prev, config));
    ClosingTwice(past, delta, outgoing, incoming, Closer(t, prev, config));
  }

  // ----- one cycle on the snapshot

  method AfterglowCycle(snap: StatusMap<Connection>, past: StatusMap<Connection>, now: int, last: int, period: int,
                        t: Tables, prev: ExternalIPs, config: ExternalIPs)
    returns (past': StatusMap<Connection>, delta: StatusMap<Connection>)
    ensures delta == ClosedDelta(past, AfterglowDelta(snap, past, now, last, period), Closer(t, prev, config))
    ensures past' == NextOld(Unclosed(past, Closer(t, prev, config)), snap, now, period)
  {
    delta := ComputeDeltaAfterglow(snap, past, now, last, period);
    past', delta := CloseOnConfigChange(t, prev, config, past, delta);
    past' := UpdateOldState(past', snap, now, period);
  }

  // ----- feeding the trackers

  /** The connections a cycle sees: events, then the scrape if there was one, then late events. */
  function FedConnections<E>(state: StatusMap<Connection>, i: Input<E>): StatusMap<Connection> {
    var reported := Applied(state, i.events);
    match i.scrape
    case Failed => reported
    case Off => Applied(reported, i.lateEvents)
    case Listed(connections, _) => Applied(ScrapedState(reported, connections, i.scrapeTime), i.lateEvents)
  }

  function FedEndpoints<E>(state: StatusMap<E>, i: Input<E>): StatusMap<E> {
    if i.scrape.Listed? then ScrapedState(state, i.scrape.endpoints, i.scrapeTime) else state
  }

  /** The reports of an input after its scrape began: the listing, then the late events. */
  function ReportsAfter<E>(i: Input<E>): seq<Event<Connection>> {
    match i.scrape
    case Failed => []
    case Off => i.lateEvents
    case Listed(connections, _) => Listing(connections, i.scrapeTime) + i.lateEvents
  }

  /**
   Of all that is reported on `c`, what was stored first, the first of the latest reports gives `s`;
   a listing marks inactive whatever is not reported again with it or after it.
   */
  ghost predicate Hears<E>(state: StatusMap<Connection>, i: Input<E>, c: Connection, s: Status) {
    HeardAs(History(state, i.events, c), i.scrape.Listed?, ReportsAfter(i), c, s)
  }

  /** What a fetch finds in the tracker, from the reports of its input. */
  lemma FetchHears<E>(state: StatusMap<Connection>, i: Input<E>, c: Connection, s: Status)
    ensures Get(FedConnections(state, i), c) == Some(s) <==> Hears(state, i, c, s)
  {
    hide Applied, ScrapedState, HeardAs, History, Silenced;
    var reported := Applied(state, i.events);
    TrackerHears(state, i.events, i.scrape.Listed?, ReportsAfter(i), c, s);
    NothingApplied(reported);
    if i.scrape.Listed? {
      ScrapeIsEvents(reported, i.scrape.connections, i.scrapeTime);
      AppliedConcat(Silenced(reported), Listing(i.scrape.connections, i.scrapeTime), i.lateEvents);
    }
  }

  lemma NothingApplied<T>(state: StatusMap<T>)
    ensures Applied(state, []) == state
  {
  }

  ghost predicate HearsEndpoint<E>(state: StatusMap<E>, i: Input<E>, e: E, s: Status) {
    HeardAs(History(state, [], e), i.scrape.Listed?,
            if i.scrape.Listed? then Listing(i.scrape.endpoints, i.scrapeTime) else [], e, s)
  }

  lemma FetchHearsEndpoint<E(!new)>(state: StatusMap<E>, i: Input<E>, e: E, s: Status)
    ensures Get(FedEndpoints(state, i), e) == Some(s) <==> HearsEndpoint(state, i, e, s)
  {
    hide Applied, ScrapedState, HeardAs, History, Silenced;
    var after := if i.scrape.Listed? then Listing(i.scrape.endpoints, i.scrapeTime) else [];
    TrackerHears(state, [], i.scrape.Listed?, after, e, s);
    NothingApplied(state);
    if i.scrape.Listed? {
      ScrapeIsEvents(state, i.scrape.endpoints, i.scrapeTime);
    }
  }

  /**
   A connection that a listing can decide, because nothing newer was reported before it and nothing
   after it, is active as of the scrape exactly when it is listed.
   */
  lemma ListedIsFetched<E>(state: StatusMap<Connection>, i: Input<E>, c: Connection)
    requires i.scrape.Listed? && forall e :: e in i.lateEvents ==> e.key != c
    requires var stored := Get(Applied(state, i.events), c); stored.Some? ==> stored.value.time < i.scrapeTime
    ensures Get(FedConnections(state, i), c) == Some(Status(i.scrapeTime, true)) <==> c in i.scrape.connections
    ensures c !in i.scrape.connections && c in Applied(state, i.events) ==>
            Get(FedConnections(state, i), c) == Some(Applied(state, i.events)[c].WithActive(false))
  {
    hide Applied;
    Unmentioned(ScrapedState(Applied(state, i.events), i.scrape.connections, i.scrapeTime), i.lateEvents, c);
  }

  lemma {:induction false} Unmentioned<T>(state: StatusMap<T>, events: seq<Event<T>>, k: T)
    requires forall e :: e in events ==> e.key != k
    ensures Get(Applied(state, events), k) == Get(state, k)
  {
    if events != [] {
      Unmentioned(state, events[..|events| - 1], k);
    }
  }

  /** The trackers between cycles: a cycle that gets as far as the fetch leaves only what is active. */
  function ConnectionsAfter<E>(state: StatusMap<Connection>, script: seq<Input<E>>): StatusMap<Connection> {
    if script == [] then state
    else
      var n := |script| - 1;
      var fed := FedConnections(ConnectionsAfter(state, script[..n]), script[n]);
      if script[n].scrape.Failed? then fed else ActiveOnly(fed)
  }

  function EndpointsAfter<E>(state: StatusMap<E>, script: seq<Input<E>>): StatusMap<E> {
    if script == [] then state
    else
      var n := |script| - 1;
      var fed := FedEndpoints(EndpointsAfter(state, script[..n]), script[n]);
      if script[n].scrape.Failed? then fed else ActiveOnly(fed)
  }

  method Report(tracker: ConnectionTracker<Connection>, events: seq<Event<Connection>>)
    modifies tracker
    ensures tracker.state == Applied(old(tracker.state), events)
  {
    for i := 0 to |events|
      invariant tracker.state == Applied(old(tracker.state), events[..i])
    {
      var e := events[i];
      tracker.UpdateConnection(e.key, e.status.time, e.status.active);
      assert events[..i + 1][..i] == events[..i];
    }
    assert events[..|events|] == events;
  }

  /** Events since the last cycle, the scrape, and the events up to the fetch; false if the scrape failed. */
  method Feed<E(!new,==)>(tracker: ConnectionTracker<Connection>, listeners: ConnectionTracker<E>, input: Input<E>)
    returns (ok: bool)
    requires tracker as object != listeners
    modifies tracker, listeners
    ensures ok <==> !input.scrape.Failed?
    ensures tracker.state == FedConnections(old(tracker.state), input)
    ensures listeners.state == FedEndpoints(old(listeners.state), input)
  {
    hide Applied, ScrapedState;
    Report(tracker, input.events);
    if input.scrape.Failed? {
      return false;
    }
    if input.scrape.Listed? {
      tracker.Update(input.scrape.connections, input.scrapeTime);
      listeners.Update(input.scrape.endpoints, input.scrapeTime);
    }
    Report(tracker, input.lateEvents);
    return true;
  }

  // ----- what an iteration should do

  /** What a run fixes before it starts. */
  datatype Setup<!E> = Setup(
    connections: StatusMap<Connection>, endpoints: StatusMap<E>,
    start: int, initial: ExternalIPs, afterglow: bool, period: int)

  /** The variables of the loop; `withheld` counts the opens that the limit has cost so far. */
  datatype Vars<E> = Vars(
    past: StatusMap<Connection>, pastEndpoints: StatusMap<E>, last: int, prev: ExternalIPs,
    messages: seq<Message<E>>, withheld: nat)

  /** An iteration that got as far as the fetch: its input, its snapshots and the opens it withheld. */
  datatype Round<!E> = Round(
    input: Input<E>, snap: StatusMap<Connection>, endpoints: StatusMap<E>, dropped: set<Connection>)

  function Begin<E>(s: Setup<E>): Vars<E> {
    Vars(map[], map[], s.start, s.initial, [], 0)
  }

  function ViewOf<E>(v: Vars<E>): View<Connection> {
    View(v.past, v.last, OpenConnections(v.messages))
  }

  function CycleOf<E>(v: Vars<E>, r: Round<E>): Cycle<Connection> {
    Cycle(r.snap, r.input.now, Closer(r.input.tables, v.prev, r.input.config), r.dropped)
  }

  function DeltaOf<E>(s: Setup<E>, v: Vars<E>, r: Round<E>): StatusMap<Connection> {
    if s.afterglow then CycleDelta(ViewOf(v), CycleOf(v, r), s.period) else PlainDelta(r.snap, v.past)
  }

  /** Nothing is sent when there is nothing new. */
  function MessageOf<E>(s: Setup<E>, v: Vars<E>, r: Round<E>): Option<Message<E>> {
    var delta, endpoints := DeltaOf(s, v, r), PlainDelta(r.endpoints, v.pastEndpoints);
    if delta == map[] && endpoints == map[] then None else Some(Message(Withhold(delta, r.dropped), endpoints))
  }

  function PastOf<E>(s: Setup<E>, v: Vars<E>, r: Round<E>): StatusMap<Connection> {
    if s.afterglow then NextOld(Unclosed(v.past, CycleOf(v, r).closes), r.snap, r.input.now, s.period) else r.snap
  }

  function StepVars<E>(s: Setup<E>, v: Vars<E>, r: Round<E>): Vars<E> {
    var m := MessageOf(s, v, r);
    Vars(PastOf(s, v, r), r.endpoints, r.input.now, if s.afterglow then r.input.config else v.prev,
         if m.Some? then v.messages + [m.value] else v.messages, v.withheld + |r.dropped|)
  }

  function RunVars<E>(s: Setup<E>, rounds: seq<Round<E>>): Vars<E> {
    if rounds == [] then Begin(s)
    else StepVars(s, RunVars(s, rounds[..|rounds| - 1]), rounds[|rounds| - 1])
  }

  function ByContainer(c: Connection): string {
    c.container
  }

  /** Only opens are withheld, and of every container exactly as many are left as the limit allows. */
  ghost predicate LimitMet(delta: StatusMap<Connection>, dropped: set<Connection>, limit: int) {
    && dropped <= ActiveKeys(delta)
    && forall c :: |Opens(Withhold(delta, dropped), ByContainer, c)| == Limited(limit, |Opens(delta, ByContainer, c)|)
  }

  /** The snapshots of a round are those the trackers give for its input after `script`. */
  ghost predicate Snapshots<E(!new)>(s: Setup<E>, script: seq<Input<E>>, r: Round<E>) {
    && Merged(FedConnections(ConnectionsAfter(s.connections, script), r.input),
              Normalizer(r.input.tables, r.input.config), r.input.fetches, r.snap)
    && Merged(FedEndpoints(EndpointsAfter(s.endpoints, script), r.input),
              r.input.normalizesEndpoint, r.input.fetchesEndpoint, r.endpoints)
  }

  /** The rounds of a script: one for every input whose scrape did not fail. */
  ghost predicate RoundsOf<E(!new)>(s: Setup<E>, script: seq<Input<E>>, rounds: seq<Round<E>>) {
    if script == [] then rounds == []
    else
      var n := |script| - 1;
      if script[n].scrape.Failed? then RoundsOf(s, script[..n], rounds)
      else
        rounds != [] &&
        var m := |rounds| - 1;
        && RoundsOf(s, script[..n], rounds[..m])
        && rounds[m].input == script[n]
        && Snapshots(s, script[..n], rounds[m])
        && LimitMet(DeltaOf(s, RunVars(s, rounds[..m]), rounds[m]), rounds[m].dropped, script[n].limit)
  }

  // ----- the loop

  /** Both snapshots of a round. */
  method FetchBoth<E(!new,==)>(tracker: ConnectionTracker<Connection>, listeners: ConnectionTracker<E>, input: Input<E>)
    returns (snap: StatusMap<Connection>, endpoints: StatusMap<E>)
    requires tracker as object != listeners
    modifies tracker, listeners
    ensures tracker.state == ActiveOnly(old(tracker.state)) && listeners.state == ActiveOnly(old(listeners.state))
    ensures Merged(old(tracker.state), Normalizer(input.tables, input.config), input.fetches, snap)
    ensures Merged(old(listeners.state), input.normalizesEndpoint, input.fetchesEndpoint, endpoints)
  {
    hide Merged, Normalizer;
    snap := tracker.FetchState(true, Normalizer(input.tables, input.config), input.fetches);
    endpoints := listeners.FetchState(true, input.normalizesEndpoint, input.fetchesEndpoint);
  }

  /** The message of a round, if any, what is remembered after it, and the record of the round. */
  method OneCycle<E>(s: Setup<E>, v: Vars<E>, input: Input<E>, snap: StatusMap<Connection>, endpoints: StatusMap<E>)
    returns (past: StatusMap<Connection>, message: Option<Message<E>>, withheld: nat, r: Round<E>)
    ensures r.input == input && r.snap == snap && r.endpoints == endpoints
    ensures LimitMet(DeltaOf(s, v, r), r.dropped, input.limit)
    ensures past == PastOf(s, v, r) && message == MessageOf(s, v, r) && withheld == |r.dropped|
  {
    hide Closer, PlainDelta, AfterglowDelta, ClosedDelta, NextOld, Unclosed, Withhold, Opens;
    var delta;
    if s.afterglow {
      past, delta := AfterglowCycle(snap, v.past, input.now, v.last, s.period, input.tables, v.prev, input.config);
    } else {
      delta := ComputeDelta(snap, v.past);
      past := snap;
    }
    var endpointDelta := ComputeDelta(endpoints, v.pastEndpoints);
    var connections;
    connections, withheld := AddConnections(delta, ByContainer, input.limit);
    r := Round(input, snap, endpoints, delta.Keys - connections.Keys);
    OnlyOpensWithheld(delta, connections);
    if delta == map[] && endpointDelta == map[] {
      message := None;
    } else {
      message := Some(Message(connections, endpointDelta));
    }
  }

  lemma OnlyOpensWithheld<T>(delta: StatusMap<T>, message: StatusMap<T>)
    requires message == Withhold(delta, delta.Keys - message.Keys)
    ensures delta.Keys - message.Keys <= ActiveKeys(delta)
    ensures |delta.Keys - message.Keys| == |delta| - |message|
  {
    assert message.Keys <= delta.Keys;
    assert delta.Keys == message.Keys + (delta.Keys - message.Keys);
  }

  /** A round after the fetch; false, with the variables left as they were, if its message cannot be delivered. */
  method Send<E>(s: Setup<E>, v: Vars<E>, input: Input<E>, snap: StatusMap<Connection>, endpoints: StatusMap<E>)
    returns (v': Vars<E>, ok: bool, r: Round<E>)
    ensures r.input == input && r.snap == snap && r.endpoints == endpoints
    ensures LimitMet(DeltaOf(s, v, r), r.dropped, input.limit)
    ensures ok <==> MessageOf(s, v, r).None? || input.delivered
    ensures v' == if ok then StepVars(s, v, r) else v
  {
    hide LimitMet, DeltaOf, PastOf, MessageOf;
    var past, message, withheld;
    past, message, withheld, r := OneCycle(s, v, input, snap, endpoints);
    var messages := v.messages;
    if message.Some? {
      if !input.delivered {
        return v, false, r;
      }
      messages := messages + [message.value];
    }
    ok := true;
    v' := Vars(past, endpoints, input.now, if s.afterglow then input.config else v.prev,
               messages, v.withheld + withheld);
  }

  /** What the trackers hold between iterations. */
  ghost predicate Fed<E>(s: Setup<E>, script: seq<Input<E>>,
                         connections: StatusMap<Connection>, endpoints: StatusMap<E>)
  {
    connections == ConnectionsAfter(s.connections, script) && endpoints == EndpointsAfter(s.endpoints, script)
  }

  lemma FedOn<E(!new)>(s: Setup<E>, script: seq<Input<E>>, input: Input<E>,
                       connections: StatusMap<Connection>, endpoints: StatusMap<E>)
    requires Fed(s, script, connections, endpoints)
    ensures var c, e := FedConnections(connections, input), FedEndpoints(endpoints, input);
            Fed(s, script + [input], if input.scrape.Failed? then c else ActiveOnly(c),
                if input.scrape.Failed? then e else ActiveOnly(e))
  {
    hide FedConnections, FedEndpoints, ActiveOnly;
    assert (script + [input])[..|script|] == script;
  }

  lemma SkipInput<E(!new)>(s: Setup<E>, script: seq<Input<E>>, rounds: seq<Round<E>>, input: Input<E>)
    requires RoundsOf(s, script, rounds) && input.scrape.Failed?
    ensures RoundsOf(s, script + [input], rounds)
  {
    assert (script + [input])[..|script|] == script;
  }

  lemma AddRound<E(!new)>(s: Setup<E>, script: seq<Input<E>>, rounds: seq<Round<E>>, r: Round<E>)
    requires RoundsOf(s, script, rounds) && !r.input.scrape.Failed? && Snapshots(s, script, r)
    requires LimitMet(DeltaOf(s, RunVars(s, rounds), r), r.dropped, r.input.limit)
    ensures RoundsOf(s, script + [r.input], rounds + [r])
    ensures RunVars(s, rounds + [r]) == StepVars(s, RunVars(s, rounds), r)
  {
    hide Snapshots, LimitMet, DeltaOf, StepVars;
    assert (script + [r.input])[..|script|] == script && (rounds + [r])[..|rounds|] == rounds;
  }

  /** The round that `input` leads to in state `v` has a message, and it is not delivered. */
  ghost predicate Undelivered<E(!new)>(s: Setup<E>, script: seq<Input<E>>, v: Vars<E>, input: Input<E>) {
    && !input.delivered && !input.scrape.Failed?
    && exists r: Round<E> :: r.input == input && Snapshots(s, script, r) && MessageOf(s, v, r).Some?
  }

  /** One iteration; false if its message could not be delivered. */
  method Iterate<E(!new,==)>(tracker: ConnectionTracker<Connection>, listeners: ConnectionTracker<E>,
                             s: Setup<E>, v: Vars<E>, input: Input<E>,
                             ghost script: seq<Input<E>>, ghost rounds: seq<Round<E>>)
    returns (v': Vars<E>, ok: bool, ghost rounds': seq<Round<E>>)
    requires Fed(s, script, tracker.state, listeners.state) && tracker as object != listeners
    requires RoundsOf(s, script, rounds) && v == RunVars(s, rounds)
    modifies tracker, listeners
    ensures v' == RunVars(s, rounds')
    ensures ok ==> RoundsOf(s, script + [input], rounds') && Fed(s, script + [input], tracker.state, listeners.state)
    ensures !ok ==> rounds' == rounds && Undelivered(s, script, v, input)
  {
    hide RoundsOf, LimitMet, DeltaOf, StepVars, RunVars, Merged, ConnectionsAfter, EndpointsAfter,
         FedConnections, FedEndpoints, ActiveOnly, MessageOf;
    v', ok, rounds' := v, true, rounds;
    FedOn(s, script, input, tracker.state, listeners.state);
    var scraped := Feed(tracker, listeners, input);
    if !scraped {
      SkipInput(s, script, rounds, input);
      return;
    }
    var snap, endpoints := FetchBoth(tracker, listeners, input);
    var r;
    v', ok, r := Send(s, v, input, snap, endpoints);
    if ok {
      AddRound(s, script, rounds, r);
      rounds' := rounds + [r];
    }
  }

  /**
   Runs until the script ends or a message cannot be delivered; `done` inputs were completed.  The
   variables, and with them every message, are those the rounds of the completed inputs determine.
   */
  method RunSingle<E(!new,==)>(tracker: ConnectionTracker<Connection>, listeners: ConnectionTracker<E>,
                               script: seq<Input<E>>, s: Setup<E>)
    returns (v: Vars<E>, done: nat, ghost rounds: seq<Round<E>>)
    requires s.connections == tracker.state && s.endpoints == listeners.state && tracker as object != listeners
    modifies tracker, listeners
    ensures done <= |script| && (done < |script| ==> Undelivered(s, script[..done], v, script[done]))
    ensures RoundsOf(s, script[..done], rounds) && v == RunVars(s, rounds)
    ensures done == |script| ==> Fed(s, script, tracker.state, listeners.state)
  {
    v, done, rounds := Begin(s), 0, [];
    while done < |script|
      invariant done <= |script| && RoundsOf(s, script[..done], rounds) && v == RunVars(s, rounds)
      invariant Fed(s, script[..done], tracker.state, listeners.state)
    {
      hide *;
      var ok;
      v, ok, rounds := Iterate(tracker, listeners, s, v, script[done], script[..done], rounds);
      if !ok {
        return;
      }
      assert script[..done + 1] == script[..done] + [script[done]];
      done := done + 1;
    }
    assert script[..|script|] == script;
  }
}
