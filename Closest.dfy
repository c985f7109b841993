/**
  * `find_closest`: the snapshot of a day whose time is nearest a requested
  * time. Turning a timestamp into seconds (`to_epoch`, a local-time
  * conversion) is a parameter: a partial function from text to seconds.
  */
module Closest {
  import opened Wrappers
  import opened SnapshotParser

  /** The timestamp the query builds from a date and an `HH:MM` time. */
  function TargetTimestamp(date: string, time: string): string {
    date + " " + time + ":00"
  }

  /** `|a - b|`, computed in 128 bits in the source, where it cannot overflow. */
  function Distance(a: int, b: int): nat {
    if a >= b then a - b else b - a
  }

  /** The snapshot's time, when its timestamp converts. */
  predicate Dated(s: Snapshot, toEpoch: string -> Option<int>) {
    toEpoch(s.timestamp).Some?
  }

  /** How far snapshot `s` is from `target`; only meaningful for a dated snapshot. */
  function Gap(s: Snapshot, target: int, toEpoch: string -> Option<int>): nat {
    match toEpoch(s.timestamp)
    case Some(t) => Distance(t, target)
    case None => 0
  }

  /**
    * `i` is what `min_by_key` over the dated snapshots picks: a dated
    * snapshot no dated snapshot is nearer to, and strictly nearer than every
    * dated snapshot before it.
    */
  predicate IsClosest(snaps: seq<Snapshot>, target: int, toEpoch: string -> Option<int>, i: nat) {
    i < |snaps| && Dated(snaps[i], toEpoch)
    && (forall k :: 0 <= k < |snaps| && Dated(snaps[k], toEpoch) ==> Gap(snaps[i], target, toEpoch) <= Gap(snaps[k], target, toEpoch))
    && (forall k :: 0 <= k < i && Dated(snaps[k], toEpoch) ==> Gap(snaps[i], target, toEpoch) < Gap(snaps[k], target, toEpoch))
  }

  /**
    * The index `min_by_key` picks from the dated snapshots: scanning in
    * order, a later snapshot replaces the best so far only when it is
    * strictly nearer, so ties go to the first.
    */
  function ClosestIndex(snaps: seq<Snapshot>, target: int, toEpoch: string -> Option<int>): (r: Option<nat>)
    ensures r.None? <==> forall k :: 0 <= k < |snaps| ==> !Dated(snaps[k], toEpoch)
    ensures r.Some? ==> IsClosest(snaps, target, toEpoch, r.value)
  {
    if snaps == [] then None
    else
      var n := |snaps| - 1;
      var best := ClosestIndex(snaps[..n], target, toEpoch);
      if !Dated(snaps[n], toEpoch) then best
      else if best.None? || Gap(snaps[n], target, toEpoch) < Gap(snaps[best.value], target, toEpoch) then Some(n)
      else best
  }

  /** Only one index answers the question, so `ClosestIndex` is the answer. */
  lemma ClosestIsUnique(snaps: seq<Snapshot>, target: int, toEpoch: string -> Option<int>, i: nat)
    requires IsClosest(snaps, target, toEpoch, i)
    ensures ClosestIndex(snaps, target, toEpoch) == Some(i)
  {
    var r := ClosestIndex(snaps, target, toEpoch);
    assert r.Some? && r.value < |snaps|;
  }

  /**
    * `find_closest`: nothing when the requested time does not convert or no
    * snapshot's timestamp does; otherwise the nearest snapshot, the first of
    * equally near ones.
    */
  function FindClosest(snaps: seq<Snapshot>, date: string, time: string, toEpoch: string -> Option<int>): (r: Option<Snapshot>)
    ensures r.None? <==> toEpoch(TargetTimestamp(date, time)).None? || forall k :: 0 <= k < |snaps| ==> !Dated(snaps[k], toEpoch)
    ensures r.Some? ==> exists i: nat :: IsClosest(snaps, toEpoch(TargetTimestamp(date, time)).value, toEpoch, i) && r.value == snaps[i]
  {
    match toEpoch(TargetTimestamp(date, time))
    case None => None
    case Some(target) =>
      match ClosestIndex(snaps, target, toEpoch)
      case None => None
      case Some(i) => Some(snaps[i])
  }
}
