// Step three of the merge: each event of the sorted list gets a new delta,
// its absolute time minus that of the event emitted before it, with the
// "previous time" starting at 0. Only the message's time is replaced.

module Deltas {
  import opened MidiTypes
  import opened StableSort

  /** The absolute time emitted before position `k`: 0 before the first event. */
  function PreviousTime(s: seq<TimedEvent>, k: nat): int
    requires k <= |s|
  {
    if k == 0 then 0 else s[k - 1].abs
  }

  /** The merged track: message `k` of `s` with its time replaced by the
      distance from the previous absolute time. */
  function Redelta(s: seq<TimedEvent>): (r: Track)
    ensures |r| == |s|
  {
    seq(|s|, k requires 0 <= k < |s| => s[k].msg.(time := s[k].abs - PreviousTime(s, k)))
  }

  /** Summing the new deltas from the start gives back each event's absolute
      time; in particular the first delta is the first absolute time itself. */
  lemma {:induction false} RedeltaAbsolute(s: seq<TimedEvent>, k: nat)
    requires k < |s|
    ensures Sum(Redelta(s)[..k + 1]) == s[k].abs
  {
    var r := Redelta(s);
    SumSnoc(r, k);
    if k == 0 {
      assert r[..0] == [];
    } else {
      RedeltaAbsolute(s, k - 1);
    }
  }

  /** The new deltas are non-negative when the times are sorted and the
      first one is not below tick 0. */
  lemma RedeltaNonNegative(s: seq<TimedEvent>)
    requires SortedByTime(s)
    requires s != [] ==> s[0].abs >= 0
    ensures forall k :: 0 <= k < |s| ==> Redelta(s)[k].time >= 0
  {
  }
}
