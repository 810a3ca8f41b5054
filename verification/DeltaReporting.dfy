/**
 The reporting step of the connection tracker: the difference between the remembered state and a
 fresh snapshot, with and without afterglow, and the update of the remembered state.

 Every loop over a hash map visits the keys in an arbitrary order.
 */
module DeltaReporting {
  import opened ConnStatus
  import opened Options

  type StatusMap<T> = map<T, Status>

  function Get<T>(m: StatusMap<T>, k: T): Option<Status> {
    if k in m then Some(m[k]) else None
  }

  // ----- what a delta holds for one key

  /** The new status, marked active when it is only recently active. */
  function ActiveIfNeeded(s: Status, recentlyActive: bool): Status {
    if recentlyActive && !s.active then Status(s.time, true) else s
  }

  predicate ClosesInDelta(s: Status, now: int, last: int, period: int) {
    s.RecentlyActive(last, period) && !s.InAfterglow(now, period)
  }

  function AfterglowEntry(snap: Option<Status>, past: Option<Status>, now: int, last: int, period: int)
    : Option<Status>
  {
    match (snap, past)
    case (Some(n), Some(o)) =>
      var newRecent := n.RecentlyActive(now, period);
      if newRecent != o.RecentlyActive(last, period) then Some(ActiveIfNeeded(n, newRecent))
      else if !newRecent && o.time < n.time then Some(n)
      else None
    case (Some(n), None) => Some(ActiveIfNeeded(n, n.RecentlyActive(now, period)))
    case (None, Some(o)) => if ClosesInDelta(o, now, last, period) then Some(Status(o.time, false)) else None
    case (None, None) => None
  }

  function PlainEntry(snap: Option<Status>, past: Option<Status>): Option<Status> {
    match (snap, past)
    case (Some(n), Some(o)) =>
      if n.active != o.active || (!n.active && o.time < n.time) then Some(n) else None
    case (Some(n), None) => Some(n)
    case (None, Some(o)) => if o.active then Some(o.WithActive(false)) else None
    case (None, None) => None
  }

  function AfterglowDelta<T>(snap: StatusMap<T>, past: StatusMap<T>, now: int, last: int, period: int): StatusMap<T> {
    map k | k in snap.Keys + past.Keys && AfterglowEntry(Get(snap, k), Get(past, k), now, last, period).Some?
      :: AfterglowEntry(Get(snap, k), Get(past, k), now, last, period).value
  }

  function PlainDelta<T>(snap: StatusMap<T>, past: StatusMap<T>): StatusMap<T> {
    map k | k in snap.Keys + past.Keys && PlainEntry(Get(snap, k), Get(past, k)).Some?
      :: PlainEntry(Get(snap, k), Get(past, k)).value
  }

  /** The remembered state after a cycle: unexpired old entries, overridden by the snapshot. */
  function NextOld<T>(past: StatusMap<T>, snap: StatusMap<T>, now: int, period: int): StatusMap<T> {
    (map k | k in past && past[k].InAfterglow(now, period) :: past[k]) + snap
  }

  /** `CloseConnections` never overwrites an entry the delta already has. */
  function ClosedDelta<T>(past: StatusMap<T>, delta: StatusMap<T>, closes: T -> bool): StatusMap<T> {
    (map k | k in past && closes(k) :: past[k].WithActive(false)) + delta
  }

  function Unclosed<T>(past: StatusMap<T>, closes: T -> bool): StatusMap<T> {
    map k | k in past && !closes(k) :: past[k]
  }

  // ----- the loops

  method ComputeDeltaAfterglow<T>(snap: StatusMap<T>, past: StatusMap<T>, now: int, last: int, period: int)
    returns (delta: StatusMap<T>)
    ensures delta == AfterglowDelta(snap, past, now, last, period)
  {
    delta := map[];
    var todo := snap.Keys;
    while todo != {}
      invariant todo <= snap.Keys
      invariant delta.Keys <= snap.Keys - todo
      invariant forall k :: k in snap.Keys - todo ==>
                  Get(delta, k) == AfterglowEntry(Get(snap, k), Get(past, k), now, last, period)
      decreases todo
    {
      var k :| k in todo;
      var n := snap[k];
      var newRecent := n.RecentlyActive(now, period);
      if k in past {
        var oldRecent := past[k].RecentlyActive(last, period);
        if newRecent != oldRecent {
          delta := delta[k := ActiveIfNeeded(n, newRecent)];
        } else if !newRecent {
          if past[k].time < n.time {
            delta := delta[k := n];
          }
        }
      } else {
        delta := delta[k := ActiveIfNeeded(n, newRecent)];
      }
      todo := todo - {k};
    }

    todo := past.Keys;
    while todo != {}
      invariant todo <= past.Keys
      invariant delta.Keys <= snap.Keys + (past.Keys - todo)
      invariant forall k :: k in snap.Keys + (past.Keys - todo) ==>
                  Get(delta, k) == AfterglowEntry(Get(snap, k), Get(past, k), now, last, period)
      decreases todo
    {
      var k :| k in todo;
      if k !in snap && ClosesInDelta(past[k], now, last, period) && k !in delta {
        delta := delta[k := Status(past[k].time, false)];
      }
      todo := todo - {k};
    }
    DeltaByEntries(delta, AfterglowDelta(snap, past, now, last, period));
  }

  /** The in-place difference: `state` starts as the old state and ends as the delta. */
  method ComputeDelta<T>(snap: StatusMap<T>, past: StatusMap<T>) returns (state: StatusMap<T>)
    ensures state == PlainDelta(snap, past)
  {
    state := InsertChanges(snap, past);
    state := CloseVanished(snap, past, state);
    DeltaByEntries(state, PlainDelta(snap, past));
  }

  /** First loop: every object of the snapshot is inserted, updated, or erased when nothing changed. */
  method InsertChanges<T>(snap: StatusMap<T>, past: StatusMap<T>) returns (state: StatusMap<T>)
    ensures forall k :: k in snap ==> Get(state, k) == PlainEntry(Get(snap, k), Get(past, k))
    ensures forall k :: k !in snap ==> Get(state, k) == Get(past, k)
  {
    state := past;
    var todo := snap.Keys;
    while todo != {}
      invariant todo <= snap.Keys
      invariant forall k :: k in snap.Keys - todo ==> Get(state, k) == PlainEntry(Get(snap, k), Get(past, k))
      invariant forall k :: k !in snap.Keys - todo ==> Get(state, k) == Get(past, k)
      decreases todo
    {
      var k :| k in todo;
      var n := snap[k];
      if k !in state || n.active != state[k].active {
        state := state[k := n];
      } else if n.active {
        state := state - {k};
      } else if state[k].time < n.time {
        state := state[k := n];
      } else {
        state := state - {k};
      }
      todo := todo - {k};
    }
  }

  /** Second loop: what the snapshot no longer has is marked inactive, or erased if it already was. */
  method CloseVanished<T>(snap: StatusMap<T>, past: StatusMap<T>, start: StatusMap<T>) returns (state: StatusMap<T>)
    requires forall k :: k !in snap ==> Get(start, k) == Get(past, k)
    ensures forall k :: k in snap ==> Get(state, k) == Get(start, k)
    ensures forall k :: k !in snap ==> Get(state, k) == PlainEntry(None, Get(past, k))
  {
    state := start;
    var todo := start.Keys;
    while todo != {}
      invariant todo <= start.Keys
      invariant forall k :: k in snap || k in todo ==> Get(state, k) == Get(start, k)
      invariant forall k :: k !in snap && k !in todo ==> Get(state, k) == PlainEntry(None, Get(start, k))
      decreases todo
    {
      var k :| k in todo;
      if k !in snap {
        assert Get(state, k) == Get(start, k);
        if state[k].active {
          state := state[k := state[k].WithActive(false)];
        } else {
          state := state - {k};
        }
      }
      todo := todo - {k};
    }
  }

  /** First loop of the update: entries past their afterglow are erased. */
  method ForgetExpired<T>(past: StatusMap<T>, now: int, period: int) returns (state: StatusMap<T>)
    ensures state == map k | k in past && past[k].InAfterglow(now, period) :: past[k]
  {
    state := past;
    var todo := past.Keys;
    while todo != {}
      invariant todo <= state.Keys <= past.Keys
      invariant forall k :: k in past && (k in todo || past[k].InAfterglow(now, period)) ==> k in state
      invariant forall k :: k in state ==> state[k] == past[k] && (k in todo || past[k].InAfterglow(now, period))
      decreases todo
    {
      var k :| k in todo;
      if !state[k].InAfterglow(now, period) {
        state := state - {k};
      }
      todo := todo - {k};
    }
  }

  method UpdateOldState<T>(past: StatusMap<T>, snap: StatusMap<T>, now: int, period: int) returns (state: StatusMap<T>)
    ensures state == NextOld(past, snap, now, period)
  {
    state := ForgetExpired(past, now, period);
    ghost var kept := state;
    var todo := snap.Keys;
    while todo != {}
      invariant todo <= snap.Keys
      invariant state.Keys == kept.Keys + (snap.Keys - todo)
      invariant forall k :: k in state ==> state[k] == if k in snap.Keys - todo then snap[k] else kept[k]
      decreases todo
    {
      var k :| k in todo;
      state := state[k := snap[k]];
      todo := todo - {k};
    }
    assert state == kept + snap;
  }

  function OpenEntry<T>(past: StatusMap<T>, closes: T -> bool, k: T): Option<Status> {
    if k in past && !closes(k) then Some(past[k]) else None
  }

  function ClosedEntry<T>(past: StatusMap<T>, delta: StatusMap<T>, closes: T -> bool, k: T): Option<Status> {
    if k in delta then Some(delta[k])
    else if k in past && closes(k) then Some(past[k].WithActive(false))
    else None
  }

  lemma EntriesOf<T>(past: StatusMap<T>, delta: StatusMap<T>, closes: T -> bool, k: T)
    requires k in past
    ensures OpenEntry(past, closes, k) == if closes(k) then None else Some(past[k])
    ensures ClosedEntry(past, delta, closes, k) ==
            if closes(k) && k !in delta then Some(past[k].WithActive(false)) else Get(delta, k)
  {
  }

  method CloseConnections<T>(past: StatusMap<T>, delta: StatusMap<T>, closes: T -> bool)
    returns (past': StatusMap<T>, delta': StatusMap<T>)
    ensures past' == Unclosed(past, closes)
    ensures delta' == ClosedDelta(past, delta, closes)
  {
    past', delta' := past, delta;
    var todo := past.Keys;
    while todo != {}
      invariant todo <= past.Keys
      invariant forall k :: Get(past', k) == if k in todo then Get(past, k) else OpenEntry(past, closes, k)
      invariant forall k :: Get(delta', k) == if k in todo then Get(delta, k) else ClosedEntry(past, delta, closes, k)
      decreases todo
    {
      hide OpenEntry, ClosedEntry;
      var k :| k in todo;
      EntriesOf(past, delta, closes, k);
      assert Get(past', k) == Get(past, k) && Get(delta', k) == Get(delta, k);
      if closes(k) {
        if k !in delta' {
          delta' := delta'[k := past'[k].WithActive(false)];
        }
        past' := past' - {k};
      }
      todo := todo - {k};
    }
    DeltaByEntries(past', Unclosed(past, closes));
    DeltaByEntries(delta', ClosedDelta(past, delta, closes));
  }

  lemma DeltaByEntries<T>(a: StatusMap<T>, b: StatusMap<T>)
    requires forall k :: k in a ==> Get(a, k) == Get(b, k)
    requires forall k :: k in b ==> Get(a, k) == Get(b, k)
    ensures a == b
  {
    forall k | k in a || k in b ensures k in a && k in b && a[k] == b[k] {
      assert Get(a, k) == Get(b, k);
    }
  }
}
