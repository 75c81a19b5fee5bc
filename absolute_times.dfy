// Step one of the merge: every track's delta times are turned into absolute
// ticks by a running sum that restarts at 0 for each track, and the stamped
// events of all tracks are concatenated in track order.

module AbsoluteTimes {
  import opened MidiTypes

  /** The messages of track number `t`, in order, each stamped with the sum
      of the deltas up to and including it. */
  function Stamp(track: Track, t: nat): seq<TimedEvent>
  {
    seq(|track|, i requires 0 <= i < |track| => TimedEvent(Sum(track[..i + 1]), t, i, track[i]))
  }

  /** The number of messages in all tracks together. */
  function TotalEvents(tracks: seq<Track>): nat
  {
    if tracks == [] then 0 else TotalEvents(tracks[..|tracks| - 1]) + |tracks[|tracks| - 1]|
  }

  /** The stamped events of all tracks, track after track. Nothing is dropped
      or duplicated: there is one event per input message. */
  function Gather(tracks: seq<Track>): (r: seq<TimedEvent>)
    ensures |r| == TotalEvents(tracks)
  {
    if tracks == [] then []
    else Gather(tracks[..|tracks| - 1]) + Stamp(tracks[|tracks| - 1], |tracks| - 1)
  }

  /** Stamping one more message of a track appends one event. */
  lemma StampSnoc(track: Track, t: nat, i: nat)
    requires i < |track|
    ensures Stamp(track, t)[..i + 1] == Stamp(track, t)[..i] + [TimedEvent(Sum(track[..i + 1]), t, i, track[i])]
  {
  }

  /** Gathering one more track appends that track's stamped events. */
  lemma GatherSnoc(tracks: seq<Track>, t: nat)
    requires t < |tracks|
    ensures Gather(tracks[..t + 1]) == Gather(tracks[..t]) + Stamp(tracks[t], t)
  {
    assert tracks[..t + 1][..t] == tracks[..t];
  }

  /** `e` is message `e.pos` of track `e.track`, stamped with the prefix sum of
      that track's deltas up to and including it. */
  predicate FromTracks(tracks: seq<Track>, e: TimedEvent)
  {
    && e.track < |tracks|
    && e.pos < |tracks[e.track]|
    && e.msg == tracks[e.track][e.pos]
    && e.abs == Sum(tracks[e.track][..e.pos + 1])
  }

  /** Message `i` of track `t` sits at offset (messages in tracks before `t`) + `i`
      of the gathered list, stamped with its own track's prefix sum. */
  lemma {:induction false} GatherAt(tracks: seq<Track>, t: nat, i: nat)
    requires t < |tracks| && i < |tracks[t]|
    ensures TotalEvents(tracks[..t]) + i < |Gather(tracks)|
    ensures Gather(tracks)[TotalEvents(tracks[..t]) + i]
            == TimedEvent(Sum(tracks[t][..i + 1]), t, i, tracks[t][i])
  {
    var n := |tracks| - 1;
    var init := tracks[..n];
    if t == n {
      assert tracks[..t] == init;
    } else {
      GatherAt(init, t, i);
      assert init[..t] == tracks[..t];
    }
  }

  /** Every gathered event is some input message with its prefix-sum time. */
  lemma {:induction false} GatherOrigin(tracks: seq<Track>)
    ensures forall e :: e in Gather(tracks) ==> FromTracks(tracks, e)
  {
    if tracks != [] {
      var n := |tracks| - 1;
      var init := tracks[..n];
      var st := Stamp(tracks[n], n);
      GatherOrigin(init);
      forall e | e in Gather(tracks)
        ensures FromTracks(tracks, e)
      {
        if e in Gather(init) {
          assert FromTracks(init, e);
        } else {
          assert e in st;
          var i :| 0 <= i < |st| && st[i] == e;
        }
      }
    }
  }

  /** The gathered list is in concatenation order: by track index, then by
      position within the track. */
  lemma {:induction false} GatherOriginOrdered(tracks: seq<Track>)
    ensures OriginOrdered(Gather(tracks))
  {
    if tracks != [] {
      var n := |tracks| - 1;
      var init := tracks[..n];
      var g := Gather(init);
      var st := Stamp(tracks[n], n);
      GatherOriginOrdered(init);
      GatherOrigin(init);
      assert Gather(tracks) == g + st;
      forall i, j | 0 <= i < j < |g + st|
        ensures OriginBefore((g + st)[i], (g + st)[j])
      {
        if j < |g| {
          assert (g + st)[i] == g[i] && (g + st)[j] == g[j];
        } else if i < |g| {
          assert g[i] in g;
        }
      }
    }
  }

  /** Within one track, an earlier message never has a later absolute time
      when deltas are non-negative. */
  lemma GatherTrackMonotone(tracks: seq<Track>, a: TimedEvent, b: TimedEvent)
    requires NonNegativeDeltas(tracks)
    requires a in Gather(tracks) && b in Gather(tracks)
    requires a.track == b.track && a.pos <= b.pos
    ensures a.abs <= b.abs
  {
    GatherOrigin(tracks);
    assert FromTracks(tracks, a) && FromTracks(tracks, b);
    var tr := tracks[a.track];
    assert forall k :: 0 <= k < |tr| ==> tr[k].time >= 0;
    SumMonotone(tr, a.pos + 1, b.pos + 1);
  }

  /** With non-negative deltas every absolute time is non-negative. */
  lemma GatherNonNegative(tracks: seq<Track>, e: TimedEvent)
    requires NonNegativeDeltas(tracks)
    requires e in Gather(tracks)
    ensures e.abs >= 0
  {
    GatherOrigin(tracks);
    assert FromTracks(tracks, e);
    var tr := tracks[e.track];
    assert forall k :: 0 <= k < |tr| ==> tr[k].time >= 0;
    SumMonotone(tr, 0, e.pos + 1);
    assert tr[..0] == [];
  }
}
