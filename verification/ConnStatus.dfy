/**
 The status of a tracked connection or endpoint: the time it was last seen alive and whether it is
 active now.  The collector packs both into one 64-bit word with the flag in bit 63; `PackedStatus`
 is that word and `Status` is the pair the rest of the model works with.
 */
module ConnStatus {

  const FLAG: nat := 0x8000_0000_0000_0000
  const WORD_LIMIT: nat := 0x1_0000_0000_0000_0000

  type Micros = t: int | 0 <= t < FLAG
  type PackedStatus = w: int | 0 <= w < WORD_LIMIT

  datatype Status = Status(time: Micros, active: bool) {
    /** Last seen less than `period` before `now`. */
    predicate InAfterglow(now: int, period: int) {
      now - time < period
    }

    predicate RecentlyActive(now: int, period: int) {
      active || InAfterglow(now, period)
    }

    function WithActive(a: bool): (s: Status) {
      Status(time, a)
    }
  }

  /** The order in which `Merge` is a maximum: active beats inactive, then the later time wins. */
  predicate AtMost(a: Status, b: Status) {
    if a.active != b.active then b.active else a.time <= b.time
  }

  function Merge(a: Status, b: Status): (m: Status)
    ensures m == a || m == b
    ensures AtMost(a, m) && AtMost(b, m)
  {
    if AtMost(a, b) then b else a
  }

  // ----- the packed word

  /** Bit 63 set or cleared; the other 63 bits stay. */
  function MakeActive(w: PackedStatus, active: bool): PackedStatus {
    var low := if w >= FLAG then w - FLAG else w;
    if active then low + FLAG else low
  }

  function Pack(s: Status): PackedStatus {
    MakeActive(s.time, s.active)
  }

  function LastActiveTime(w: PackedStatus): Micros {
    MakeActive(w, false)
  }

  predicate IsActive(w: PackedStatus) {
    w >= FLAG
  }

  function Unpack(w: PackedStatus): Status {
    Status(LastActiveTime(w), IsActive(w))
  }

  function MergeWords(a: PackedStatus, b: PackedStatus): PackedStatus {
    if a < b then b else a
  }

  /** Packing is a bijection, and on packed words the unsigned maximum is the merge of statuses. */
  lemma PackingIsExact(s: Status, a: PackedStatus, b: PackedStatus, active: bool)
    ensures Unpack(Pack(s)) == s && Pack(Unpack(a)) == a
    ensures Unpack(MergeWords(a, b)) == Merge(Unpack(a), Unpack(b))
    ensures a <= b <==> AtMost(Unpack(a), Unpack(b))
    ensures Unpack(MakeActive(a, active)) == Unpack(a).WithActive(active)
  {
  }

  /** The merge of a collection does not depend on the order in which it is merged. */
  lemma MergeLaws(a: Status, b: Status, c: Status)
    ensures Merge(a, b) == Merge(b, a)
    ensures Merge(a, Merge(b, c)) == Merge(Merge(a, b), c)
    ensures Merge(a, a) == a
  {
  }
}
