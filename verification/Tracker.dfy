/**
 The tracker's map of raw connections (or listen endpoints): kernel events and scrapes update it, a
 fetch takes a normalised snapshot and drops what is inactive.
 */
module Tracker {
  import opened ConnStatus
  import opened DeltaReporting
  import opened Options

  /** A report is kept only if it is newer than what is stored. */
  function Emplaced<T>(state: StatusMap<T>, k: T, s: Status): StatusMap<T> {
    if k in state && s.time <= state[k].time then state else state[k := s]
  }

  /** After a scrape at `ts`: listed keys that are new or older than `ts` are active, nothing else is. */
  function ScrapedEntry(stored: Option<Status>, listed: bool, ts: Micros): Option<Status> {
    match stored
    case None => if listed then Some(Status(ts, true)) else None
    case Some(s) => Some(if listed && s.time < ts then Status(ts, true) else s.WithActive(false))
  }

  function ScrapedState<T>(state: StatusMap<T>, all: seq<T>, ts: Micros): StatusMap<T> {
    map k | k in state.Keys + (set x | x in all) :: ScrapedEntry(Get(state, k), k in all, ts).value
  }

  /** `m` is a greatest status among those of the raw keys that `keep` lets through and `norm` sends to `k`. */
  ghost predicate MergedAt<T, K>(state: StatusMap<T>, norm: T -> K, keep: T -> bool, k: K, m: Option<Status>) {
    match m
    case None => forall r :: r in state && keep(r) ==> norm(r) != k
    case Some(s) =>
      && (exists r :: r in state && keep(r) && norm(r) == k && state[r] == s)
      && (forall r :: r in state && keep(r) && norm(r) == k ==> AtMost(state[r], s))
  }

  ghost predicate Merged<T, K(!new)>(state: StatusMap<T>, norm: T -> K, keep: T -> bool, fetched: StatusMap<K>) {
    forall k :: MergedAt(state, norm, keep, k, Get(fetched, k))
  }

  /** The snapshot of a state is unique, whatever order its keys were visited in. */
  lemma SnapshotIsUnique<T, K(!new)>(state: StatusMap<T>, norm: T -> K, keep: T -> bool,
                                     a: StatusMap<K>, b: StatusMap<K>)
    requires Merged(state, norm, keep, a) && Merged(state, norm, keep, b)
    ensures a == b
  {
    forall k | k in a || k in b ensures Get(a, k) == Get(b, k) {
      assert MergedAt(state, norm, keep, k, Get(a, k)) && MergedAt(state, norm, keep, k, Get(b, k));
    }
    DeltaByEntries(a, b);
  }

  function ActiveOnly<T>(state: StatusMap<T>): StatusMap<T> {
    map k | k in state && state[k].active :: state[k]
  }

  class ConnectionTracker<T(!new,==)> {
    var state: StatusMap<T>

    constructor ()
      ensures state == map[]
    {
      state := map[];
    }

    /** True if the key was not yet tracked. */
    method EmplaceOrUpdate(k: T, status: Status) returns (added: bool)
      modifies this
      ensures state == Emplaced(old(state), k, status)
      ensures added <==> k !in old(state)
    {
      added := k !in state;
      if added {
        state := state[k := status];
      } else if status.time > state[k].time {
        state := state[k := status];
      }
    }

    method UpdateConnection(k: T, timestamp: Micros, added: bool)
      modifies this
      ensures state == Emplaced(old(state), k, Status(timestamp, added))
    {
      var _ := EmplaceOrUpdate(k, Status(timestamp, added));
    }

    /** A scrape: everything becomes inactive, then every listed key is reported active. */
    method Update(all: seq<T>, timestamp: Micros)
      modifies this
      ensures state == ScrapedState(old(state), all, timestamp)
    {
      var todo := state.Keys;
      while todo != {}
        invariant todo <= state.Keys == old(state).Keys
        invariant forall k :: k in state ==>
                    state[k] == if k in todo then old(state)[k] else old(state)[k].WithActive(false)
        decreases todo
      {
        var k :| k in todo;
        state := state[k := state[k].WithActive(false)];
        todo := todo - {k};
      }
      for i := 0 to |all|
        invariant forall k :: Get(state, k) == ScrapedEntry(Get(old(state), k), k in all[..i], timestamp)
      {
        var _ := EmplaceOrUpdate(all[i], Status(timestamp, true));
        assert all[..i + 1] == all[..i] + [all[i]];
      }
      assert all[..|all|] == all;
      DeltaByEntries(state, ScrapedState(old(state), all, timestamp));
    }

    /** A snapshot under `norm`, in any order; with `clear` the inactive entries leave the tracker. */
    method FetchState<K(!new,==)>(clear: bool, norm: T -> K, keep: T -> bool) returns (fetched: StatusMap<K>)
      modifies this
      ensures Merged(old(state), norm, keep, fetched)
      ensures state == if clear then ActiveOnly(old(state)) else old(state)
    {
      fetched := map[];
      var todo := state.Keys;
      ghost var seen: StatusMap<T> := map[];
      while todo != {}
        invariant todo <= state.Keys <= old(state).Keys
        invariant forall k :: k in state ==> state[k] == old(state)[k]
        invariant forall k :: k in old(state) ==> (k in state <==> k in todo || !clear || old(state)[k].active)
        invariant seen == map k | k in old(state) && k !in todo :: old(state)[k]
        invariant Merged(seen, norm, keep, fetched)
        decreases todo
      {
        var r :| r in todo;
        var s := state[r];
        ghost var before := fetched;
        if keep(r) {
          var k := norm(r);
          if k in fetched {
            fetched := fetched[k := Merge(fetched[k], s)];
          } else {
            fetched := fetched[k := s];
          }
        }
        MergeOne(seen, norm, keep, before, r, s, fetched);
        seen := seen[r := s];
        if clear && !s.active {
          state := state - {r};
        }
        todo := todo - {r};
      }
      assert seen == old(state);
    }
  }

  lemma MergeOne<T, K(!new)>(seen: StatusMap<T>, norm: T -> K, keep: T -> bool, before: StatusMap<K>,
                             r: T, s: Status, after: StatusMap<K>)
    requires Merged(seen, norm, keep, before) && r !in seen
    requires after == if !keep(r) then before
                      else before[norm(r) := if norm(r) in before then Merge(before[norm(r)], s) else s]
    ensures Merged(seen[r := s], norm, keep, after)
  {
    forall k ensures MergedAt(seen[r := s], norm, keep, k, Get(after, k)) {
      assert MergedAt(seen, norm, keep, k, Get(before, k));
      if k in before {
        var q :| q in seen && keep(q) && norm(q) == k && seen[q] == before[k];
        assert q in seen[r := s] && seen[r := s][q] == before[k];
      }
      if keep(r) && norm(r) == k {
        assert seen[r := s][r] == s;
      }
    }
  }

  /** A scrape at `ts` leaves active exactly the listed keys that were absent or last seen before `ts`. */
  lemma ScrapeLeavesActive<T>(state: StatusMap<T>, all: seq<T>, ts: Micros)
    ensures ActiveOnly(ScrapedState(state, all, ts)).Keys == set k | k in all && (k in state ==> state[k].time < ts)
    ensures ScrapedState(state, all, ts).Keys == state.Keys + (set k | k in all)
  {
  }

  // ----- sequences of events

  datatype Event<T> = Event(key: T, status: Status)

  function Applied<T>(state: StatusMap<T>, events: seq<Event<T>>): StatusMap<T> {
    if events == [] then state
    else
      var n := |events| - 1;
      Emplaced(Applied(state, events[..n]), events[n].key, events[n].status)
  }

  /** Event `i` is the first of the latest events on its key. */
  ghost predicate FirstOfLatest<T>(events: seq<Event<T>>, i: nat)
    requires i < |events|
  {
    forall j :: 0 <= j < |events| && events[j].key == events[i].key ==>
      events[j].status.time <= events[i].status.time && (j < i ==> events[j].status.time < events[i].status.time)
  }

  lemma {:induction false} FirstOfLatestFromNothing<T>(events: seq<Event<T>>, k: T)
    ensures match Get(Applied(map[], events), k)
            case None => forall j :: 0 <= j < |events| ==> events[j].key != k
            case Some(s) => exists i :: 0 <= i < |events| && events[i] == Event(k, s) && FirstOfLatest(events, i)
  {
    if events != [] {
      var n := |events| - 1;
      var shorter := events[..n];
      FirstOfLatestFromNothing(shorter, k);
      var stored := Get(Applied(map[], shorter), k);
      if stored.Some? {
        var i :| 0 <= i < |shorter| && shorter[i] == Event(k, stored.value) && FirstOfLatest(shorter, i);
        if events[n].key == k && events[n].status.time > stored.value.time {
          assert events[n] == Event(k, events[n].status);
          forall j | 0 <= j < n && events[j].key == k ensures events[j].status.time < events[n].status.time {
            assert shorter[j] == events[j];
          }
          assert FirstOfLatest(events, n);
        } else {
          forall j | 0 <= j < |events| && events[j].key == k
            ensures events[j].status.time <= stored.value.time && (j < i ==> events[j].status.time < stored.value.time)
          {
            assert j < n ==> shorter[j] == events[j];
          }
          assert FirstOfLatest(events, i);
        }
      } else {
        forall j | 0 <= j < n ensures events[j].key != k {
          assert shorter[j] == events[j];
        }
        if events[n].key == k {
          assert events[n] == Event(k, events[n].status) && FirstOfLatest(events, n);
        }
      }
    }
  }

  /** All that is known of `k`: what is stored counts as the earliest event. */
  function History<T>(state: StatusMap<T>, events: seq<Event<T>>, k: T): seq<Event<T>> {
    (if k in state then [Event(k, state[k])] else []) + events
  }

  lemma {:induction false} StoredIsEarliest<T>(state: StatusMap<T>, events: seq<Event<T>>, k: T)
    ensures Get(Applied(state, events), k) == Get(Applied(map[], History(state, events, k)), k)
  {
    var h := History(state, events, k);
    if events == [] {
      assert k in state ==> h[..0] == [];
    } else {
      var n := |events| - 1;
      StoredIsEarliest(state, events[..n], k);
      assert h[..|h| - 1] == History(state, events[..n], k) && h[|h| - 1] == events[n];
    }
  }

  /** From any state, any sequence of events leaves a key the status of the first of the latest. */
  lemma FirstOfLatestWins<T>(state: StatusMap<T>, events: seq<Event<T>>, k: T)
    ensures var h := History(state, events, k);
            match Get(Applied(state, events), k)
            case None => forall j :: 0 <= j < |h| ==> h[j].key != k
            case Some(s) => exists i :: 0 <= i < |h| && h[i] == Event(k, s) && FirstOfLatest(h, i)
  {
    hide Applied, History, FirstOfLatest;
    StoredIsEarliest(state, events, k);
    FirstOfLatestFromNothing(History(state, events, k), k);
  }

  // ----- scrapes among events

  /** Every entry marked inactive, its time kept. */
  function Silenced<T>(state: StatusMap<T>): StatusMap<T> {
    map k | k in state :: state[k].WithActive(false)
  }

  /** A listing as events: every listed key reported active at `ts`. */
  function Listing<T>(all: seq<T>, ts: Micros): (events: seq<Event<T>>)
    ensures |events| == |all| && forall i :: 0 <= i < |all| ==> events[i] == Event(all[i], Status(ts, true))
  {
    seq(|all|, i requires 0 <= i < |all| => Event(all[i], Status(ts, true)))
  }

  /** A scrape is silence followed by the events of its listing. */
  lemma ScrapeIsEvents<T(!new)>(state: StatusMap<T>, all: seq<T>, ts: Micros)
    ensures ScrapedState(state, all, ts) == Applied(Silenced(state), Listing(all, ts))
  {
    var x, y := ScrapedState(state, all, ts), Applied(Silenced(state), Listing(all, ts));
    forall k ensures Get(x, k) == Get(y, k) {
      ScrapedKey(state, all, ts, k);
    }
    DeltaByEntries(x, y);
  }

  lemma {:induction false} ScrapedKey<T>(state: StatusMap<T>, all: seq<T>, ts: Micros, k: T)
    ensures Get(Applied(Silenced(state), Listing(all, ts)), k) == ScrapedEntry(Get(state, k), k in all, ts)
  {
    var events := Listing(all, ts);
    if all != [] {
      var n := |all| - 1;
      ScrapedKey(state, all[..n], ts, k);
      assert events[..n] == Listing(all[..n], ts);
      assert all == all[..n] + [all[n]];
    }
  }

  lemma {:induction false} AppliedConcat<T>(state: StatusMap<T>, a: seq<Event<T>>, b: seq<Event<T>>)
    ensures Applied(state, a + b) == Applied(Applied(state, a), b)
  {
    if b == [] {
      assert a + b == a;
    } else {
      var n := |b| - 1;
      AppliedConcat(state, a, b[..n]);
      assert (a + b)[..|a + b| - 1] == a + b[..n] && (a + b)[|a + b| - 1] == b[n];
    }
  }

  /**
   Report `j` on `k` decides its status `s`: it is the first of the latest, before or after a
   possible silence, and counts as active only if it is and was not silenced.
   */
  ghost predicate HeardAt<T>(before: seq<Event<T>>, silence: bool, after: seq<Event<T>>, k: T, s: Status, j: int) {
    var h := before + after;
    && 0 <= j < |h| && h[j].key == k && FirstOfLatest(h, j)
    && s == Status(h[j].status.time, h[j].status.active && (silence ==> |before| <= j))
  }

  ghost predicate HeardAs<T>(before: seq<Event<T>>, silence: bool, after: seq<Event<T>>, k: T, s: Status) {
    exists j :: HeardAt(before, silence, after, k, s, j)
  }

  lemma HeardOnce<T>(before: seq<Event<T>>, silence: bool, after: seq<Event<T>>, k: T, s: Status, t: Status)
    requires HeardAs(before, silence, after, k, s) && HeardAs(before, silence, after, k, t)
    ensures s == t
  {
    var i :| HeardAt(before, silence, after, k, s, i);
    var j :| HeardAt(before, silence, after, k, t, j);
    var h := before + after;
    assert h[i].key == h[j].key;
  }

  /** The first of the latest of a sequence, carried on as its only report, decides with what follows. */
  lemma FirstOfLatestCarried<T>(before: seq<Event<T>>, i: nat, s: Status, after: seq<Event<T>>, j: nat)
    requires i < |before| && FirstOfLatest(before, i) && s.time == before[i].status.time
    requires j < |after| + 1 && FirstOfLatest([Event(before[i].key, s)] + after, j)
    requires ([Event(before[i].key, s)] + after)[j].key == before[i].key
    ensures FirstOfLatest(before + after, if j == 0 then i else |before| + j - 1)
  {
    var k := before[i].key;
    var h, g := before + after, [Event(k, s)] + after;
    assert g[0] == Event(k, s);
    forall l | 0 <= l < |h| && h[l].key == k
      ensures h[l].status.time <= g[j].status.time
      ensures l < (if j == 0 then i else |before| + j - 1) ==> h[l].status.time < g[j].status.time
    {
      if l < |before| {
        assert h[l] == before[l];
      } else {
        assert h[l] == after[l - |before|] == g[l - |before| + 1];
      }
    }
  }

  /** What a tracker holds after reports, a possible silence, and more reports. */
  lemma TrackerHears<T>(state: StatusMap<T>, a: seq<Event<T>>, silence: bool, b: seq<Event<T>>, k: T, s: Status)
    ensures var reported := Applied(state, a);
            Get(Applied(if silence then Silenced(reported) else reported, b), k) == Some(s)
            <==> HeardAs(History(state, a, k), silence, b, k, s)
  {
    hide Applied, History, FirstOfLatest;
    var reported := Applied(state, a);
    var x := Get(Applied(if silence then Silenced(reported) else reported, b), k);
    SomethingHeard(state, a, silence, b, k);
    if x == Some(s) {
      assert HeardAs(History(state, a, k), silence, b, k, s);
    }
    if HeardAs(History(state, a, k), silence, b, k, s) && x.Some? {
      HeardOnce(History(state, a, k), silence, b, k, s, x.value);
    }
  }

  /** What is held of a key that was already reported. */
  lemma HeardOn<T>(before: seq<Event<T>>, i: nat, silence: bool, mid: StatusMap<T>, b: seq<Event<T>>, k: T)
    requires i < |before| && before[i].key == k && FirstOfLatest(before, i)
    requires k in mid && mid[k] == (if silence then before[i].status.WithActive(false) else before[i].status)
    ensures Get(Applied(mid, b), k).Some? && HeardAs(before, silence, b, k, Get(Applied(mid, b), k).value)
  {
    hide Applied;
    var x, g := Get(Applied(mid, b), k), History(mid, b, k);
    FirstOfLatestWins(mid, b, k);
    assert g[0] == Event(k, mid[k]);
    assert x.Some?;
    var j :| 0 <= j < |g| && g[j] == Event(k, x.value) && FirstOfLatest(g, j);
    FirstOfLatestCarried(before, i, mid[k], b, j);
    assert HeardAt(before, silence, b, k, x.value, if j == 0 then i else |before| + j - 1);
  }

  lemma HeardIn<T>(before: seq<Event<T>>, silence: bool, after: seq<Event<T>>, k: T, s: Status, j: nat)
    requires |before| <= j < |before + after| && FirstOfLatest(before + after, j)
    requires (before + after)[j] == Event(k, s)
    ensures HeardAs(before, silence, after, k, s)
  {
    hide FirstOfLatest;
    assert HeardAt(before, silence, after, k, s, j);
  }

  lemma NeverHeard<T>(before: seq<Event<T>>, silence: bool, after: seq<Event<T>>, k: T)
    requires forall l :: 0 <= l < |before| ==> before[l].key != k
    requires forall l :: 0 <= l < |after| ==> after[l].key != k
    ensures forall s :: !HeardAs(before, silence, after, k, s)
  {
    hide FirstOfLatest;
    forall l | 0 <= l < |before + after| ensures (before + after)[l].key != k {
    }
  }

  /** And of one that was not. */
  lemma HeardNewly<T>(before: seq<Event<T>>, silence: bool, mid: StatusMap<T>, b: seq<Event<T>>, k: T)
    requires k !in mid && forall l :: 0 <= l < |before| ==> before[l].key != k
    ensures match Get(Applied(mid, b), k)
            case None => forall s :: !HeardAs(before, silence, b, k, s)
            case Some(s) => HeardAs(before, silence, b, k, s)
  {
    hide Applied, HeardAs, FirstOfLatest;
    var x := Get(Applied(mid, b), k);
    FirstOfLatestWins(mid, b, k);
    assert History(mid, b, k) == b;
    if x.Some? {
      var j :| 0 <= j < |b| && b[j] == Event(k, x.value) && FirstOfLatest(b, j);
      OnlyAfter(before, b, j);
      HeardIn(before, silence, b, k, x.value, |before| + j);
    } else {
      NeverHeard(before, silence, b, k);
    }
  }

  lemma SomethingHeard<T>(state: StatusMap<T>, a: seq<Event<T>>, silence: bool, b: seq<Event<T>>, k: T)
    ensures var reported, h := Applied(state, a), History(state, a, k);
            match Get(Applied(if silence then Silenced(reported) else reported, b), k)
            case None => forall s :: !HeardAs(h, silence, b, k, s)
            case Some(s) => HeardAs(h, silence, b, k, s)
  {
    hide Applied, History, HeardAs, FirstOfLatest;
    var reported, before := Applied(state, a), History(state, a, k);
    var mid := if silence then Silenced(reported) else reported;
    FirstOfLatestWins(state, a, k);
    if k in reported {
      var i :| 0 <= i < |before| && before[i] == Event(k, reported[k]) && FirstOfLatest(before, i);
      HeardOn(before, i, silence, mid, b, k);
    } else {
      HeardNewly(before, silence, mid, b, k);
    }
  }

  lemma OnlyAfter<T>(before: seq<Event<T>>, after: seq<Event<T>>, j: nat)
    requires j < |after| && FirstOfLatest(after, j) && forall l :: 0 <= l < |before| ==> before[l].key != after[j].key
    ensures FirstOfLatest(before + after, |before| + j)
  {
    var h := before + after;
    forall l | 0 <= l < |h| && h[l].key == after[j].key
      ensures h[l].status.time <= after[j].status.time
      ensures l < |before| + j ==> h[l].status.time < after[j].status.time
    {
      if l >= |before| {
        assert h[l] == after[l - |before|];
      }
    }
  }

  // ----- the order of events

  /** `e` is later than what is stored and no event on its key is later than `e`. */
  ghost predicate Latest<T(!new)>(state: StatusMap<T>, events: seq<Event<T>>, e: Event<T>) {
    && e in events && (e.key in state ==> state[e.key].time < e.status.time)
    && forall d :: d in events && d.key == e.key ==> d.status.time <= e.status.time
  }

  lemma LatestWins<T(!new)>(state: StatusMap<T>, events: seq<Event<T>>, k: T)
    ensures var x := Get(Applied(state, events), k);
            || (x.Some? && Latest(state, events, Event(k, x.value)))
            || (x == Get(state, k) && forall e :: e in events && e.key == k ==> !Latest(state, events, e))
  {
    var x, h := Get(Applied(state, events), k), History(state, events, k);
    FirstOfLatestWins(state, events, k);
    forall e | e in events ensures e in h {}
    if x.Some? {
      var i :| 0 <= i < |h| && h[i] == Event(k, x.value) && FirstOfLatest(h, i);
      assert k in state ==> h[0] == Event(k, state[k]);
      if k !in state || i > 0 {
        assert h[i] in events;
      }
    }
  }

  ghost predicate SameEvents<T(!new)>(a: seq<Event<T>>, b: seq<Event<T>>) {
    forall e :: e in a <==> e in b
  }

  /** No two latest events on one key disagree. */
  ghost predicate LatestAgree<T(!new)>(state: StatusMap<T>, events: seq<Event<T>>) {
    forall d, e :: Latest(state, events, d) && Latest(state, events, e) && d.key == e.key ==> d == e
  }

  lemma SameWinners<T(!new)>(state: StatusMap<T>, a: seq<Event<T>>, b: seq<Event<T>>)
    requires SameEvents(a, b) && LatestAgree(state, a)
    ensures Applied(state, a) == Applied(state, b)
  {
    var x, y := Applied(state, a), Applied(state, b);
    forall k ensures Get(x, k) == Get(y, k) {
      LatestWins(state, a, k);
      LatestWins(state, b, k);
      assert forall e :: Latest(state, a, e) <==> Latest(state, b, e);
    }
    DeltaByEntries(x, y);
  }

  /** A latest event that comes first wins. */
  lemma ComingFirstWins<T(!new)>(state: StatusMap<T>, events: seq<Event<T>>, e: Event<T>)
    requires Latest(state, events, e)
    ensures SameEvents(events, [e] + events) && Get(Applied(state, [e] + events), e.key) == Some(e.status)
  {
    var first := [e] + events;
    var x := Get(Applied(state, first), e.key);
    var h := History(state, first, e.key);
    FirstOfLatestWins(state, first, e.key);
    var o := if e.key in state then 1 else 0;
    assert h[o] == e;
    assert x.Some?;
    var i :| 0 <= i < |h| && h[i] == Event(e.key, x.value) && FirstOfLatest(h, i);
    assert i == o;
  }

  /**
   Whatever is stored, events may arrive in any order and repeatedly if and only if no two latest
   events on one key disagree.
   */
  lemma OrderIsIrrelevant<T(!new)>(state: StatusMap<T>, a: seq<Event<T>>)
    ensures (forall b :: SameEvents(a, b) ==> Applied(state, a) == Applied(state, b)) <==> LatestAgree(state, a)
  {
    hide Applied, SameEvents, Latest;
    if LatestAgree(state, a) {
      forall b | SameEvents(a, b) ensures Applied(state, a) == Applied(state, b) {
        SameWinners(state, a, b);
      }
    } else {
      var d, e :| Latest(state, a, d) && Latest(state, a, e) && d.key == e.key && d != e;
      ComingFirstWins(state, a, d);
      ComingFirstWins(state, a, e);
      assert Applied(state, [d] + a) != Applied(state, [e] + a);
    }
  }

  // ----- runs with fetches

  /** What can happen to a tracker between and during cycles. */
  datatype Op<!T> = Report(key: T, status: Status) | Scrape(all: seq<T>, ts: Micros) | ClearingFetch

  function Step<T>(state: StatusMap<T>, op: Op<T>): StatusMap<T> {
    match op
    case Report(k, s) => Emplaced(state, k, s)
    case Scrape(all, ts) => ScrapedState(state, all, ts)
    case ClearingFetch => ActiveOnly(state)
  }

  function StateAfter<T>(state: StatusMap<T>, ops: seq<Op<T>>): StatusMap<T> {
    if ops == [] then state else Step(StateAfter(state, ops[..|ops| - 1]), ops[|ops| - 1])
  }

  predicate Mentions<T(==)>(op: Op<T>, k: T) {
    match op
    case Report(x, _) => x == k
    case Scrape(all, _) => k in all
    case ClearingFetch => false
  }

  /** A closed entry is fetched at most once: after a clearing fetch it is gone until it is reported again. */
  lemma {:induction false} ClosedEntryIsFetchedOnce<T>(state: StatusMap<T>, ops: seq<Op<T>>, k: T)
    requires k in state ==> !state[k].active
    requires ops != [] && ops[0] == ClearingFetch
    requires forall i :: 0 <= i < |ops| ==> !Mentions(ops[i], k)
    ensures k !in StateAfter(state, ops)
  {
    var n := |ops| - 1;
    if n > 0 {
      ClosedEntryIsFetchedOnce(state, ops[..n], k);
    } else {
      assert StateAfter(state, ops[..0]) == state;
    }
  }
}
