/**
 From a delta to the message that is sent: opens are limited per container, closes never are.
 */
module Emission {
  import opened ConnStatus
  import opened DeltaReporting
  import opened RateLimit
  import opened SensorView

  /** The active entries of one container. */
  function Opens<T>(delta: StatusMap<T>, container: T -> string, c: string): set<T> {
    set k | k in delta && delta[k].active && container(k) == c
  }

  function Min(a: int, b: int): int {
    if a < b then a else b
  }

  /** What a limit lets through out of `n`; a negative limit lets nothing through. */
  function Limited(limit: int, n: nat): nat {
    if limit < 0 then 0 else Min(limit, n)
  }

  /**
   The entries are visited in any order.  The message keeps every close and, for every container,
   exactly as many opens as the limit allows.
   */
  method AddConnections<T>(delta: StatusMap<T>, container: T -> string, limit: int)
    returns (message: StatusMap<T>, withheld: nat)
    ensures message == Withhold(delta, delta.Keys - message.Keys)
    ensures forall c :: |Opens(message, container, c)| == Limited(limit, |Opens(delta, container, c)|)
    ensures withheld == |delta| - |message| && (withheld == 0 <==> message == delta)
  {
    var limiter := new CountLimiter(limit);
    message, withheld := map[], 0;
    var todo := delta.Keys;
    ghost var done: StatusMap<T> := map[];
    while todo != {}
      invariant fresh(limiter) && limiter.count == limit
      invariant todo <= delta.Keys && done == map k | k in delta && k !in todo :: delta[k]
      invariant SoFar(done, message, container, limit, withheld)
      invariant forall c :: limiter.Calls(c) == |Opens(done, container, c)|
      decreases todo
    {
      hide SoFar, Opens;
      var k :| k in todo;
      todo := todo - {k};
      var send := true;
      if delta[k].active {
        send := limiter.Allow(container(k));
      }
      ghost var before, before' := message, withheld;
      forall c ensures |Opens(done[k := delta[k]], container, c)| ==
                       |Opens(done, container, c)| + if delta[k].active && container(k) == c then 1 else 0 {
        OneMoreOpen(done, container, k, delta[k], c);
      }
      if send {
        message := message[k := delta[k]];
      } else {
        withheld := withheld + 1;
      }
      EntryHandled(done, before, container, limit, before', k, delta[k], send);
      done := done[k := delta[k]];
    }
    assert done == delta;
    SubmapSize(message, delta);
  }

  /** What holds of the message when the entries of `done` have been visited. */
  ghost predicate SoFar<T>(done: StatusMap<T>, message: StatusMap<T>, container: T -> string,
                           limit: int, withheld: nat)
  {
    && message.Keys <= done.Keys && (forall k :: k in message ==> message[k] == done[k])
    && (forall k :: k in done && !done[k].active ==> k in message)
    && withheld == |done| - |message|
    && (forall c :: |Opens(message, container, c)| == Limited(limit, |Opens(done, container, c)|))
  }

  lemma EntryHandled<T>(done: StatusMap<T>, message: StatusMap<T>, container: T -> string, limit: int, withheld: nat,
                        k: T, s: Status, send: bool)
    requires SoFar(done, message, container, limit, withheld) && k !in done
    requires send <==> (s.active ==> |Opens(done, container, container(k))| + 1 <= limit)
    ensures SoFar(done[k := s], if send then message[k := s] else message, container,
                  limit, if send then withheld else withheld + 1)
  {
    hide Opens;
    OneMore(done, k, s);
    OneMore(message, k, s);
    var message' := if send then message[k := s] else message;
    forall c ensures |Opens(message', container, c)| == Limited(limit, |Opens(done[k := s], container, c)|) {
      OneMoreOpen(done, container, k, s, c);
      OneMoreOpen(message, container, k, s, c);
      assert |Opens(message, container, c)| == Limited(limit, |Opens(done, container, c)|);
    }
  }

  lemma OneMore<T>(m: StatusMap<T>, k: T, s: Status)
    requires k !in m
    ensures |m[k := s]| == |m| + 1
  {
    assert m[k := s].Keys == m.Keys + {k};
  }

  lemma OneMoreOpen<T>(m: StatusMap<T>, container: T -> string, k: T, s: Status, c: string)
    requires k !in m
    ensures |Opens(m[k := s], container, c)| ==
            |Opens(m, container, c)| + if s.active && container(k) == c then 1 else 0
  {
    assert Opens(m[k := s], container, c) == Opens(m, container, c) + if s.active && container(k) == c then {k} else {};
  }

  lemma SubmapSize<T>(m: StatusMap<T>, delta: StatusMap<T>)
    requires m.Keys <= delta.Keys && forall k :: k in m ==> m[k] == delta[k]
    ensures |m| <= |delta| && (|m| == |delta| <==> m == delta)
  {
    assert delta.Keys == m.Keys + (delta.Keys - m.Keys);
    if |m| == |delta| {
      assert |delta.Keys - m.Keys| == 0;
    }
  }
}
