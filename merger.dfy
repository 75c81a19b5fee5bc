// merge_tracks: collapses the tracks of a MIDI file into one track whose
// events are ordered by absolute time, then replaces the file's track list
// with that single track.

module Merger {
  import opened MidiTypes
  import opened AbsoluteTimes
  import opened StableSort
  import opened Deltas

  /** A loaded MIDI file: the track list that merging replaces, plus the two
      header fields that merging must leave as they were. */
  class MidiFile {
    /** The file format (0, 1 or 2); never touched by the merge. */
    var fileType: int
    /** Ticks per quarter note; never touched by the merge. */
    var ticksPerBeat: int
    var tracks: seq<Track>

    constructor (fileType: int, ticksPerBeat: int, tracks: seq<Track>)
      ensures this.fileType == fileType && this.ticksPerBeat == ticksPerBeat
      ensures this.tracks == tracks
    {
      this.fileType := fileType;
      this.ticksPerBeat := ticksPerBeat;
      this.tracks := tracks;
    }
  }

  /** All events of all tracks, with absolute times, sorted stably by time. */
  function Timeline(tracks: seq<Track>): seq<TimedEvent>
  {
    SortByTime(Gather(tracks))
  }

  /** The single track that merging produces. */
  function Merged(tracks: seq<Track>): Track
  {
    Redelta(Timeline(tracks))
  }

  /** Merges the tracks of `mid` in place and returns the same file: its track
      list becomes the one merged track, and nothing else about it changes. */
  method MergeTracks(mid: MidiFile) returns (r: MidiFile)
    modifies mid`tracks
    ensures r == mid
    ensures mid.tracks == [Merged(old(mid.tracks))]
    ensures mid.fileType == old(mid.fileType) && mid.ticksPerBeat == old(mid.ticksPerBeat)
  {
    var newTrack: Track := [];
    var events: seq<TimedEvent> := [];
    var tracks := mid.tracks;

    // Gather events with absolute timing from all tracks.
    var t := 0;
    while t < |tracks|
      invariant 0 <= t <= |tracks|
      invariant events == Gather(tracks[..t])
    {
      var track := tracks[t];
      var absoluteTime := 0;
      var i := 0;
      while i < |track|
        invariant 0 <= i <= |track|
        invariant absoluteTime == Sum(track[..i])
        invariant events == Gather(tracks[..t]) + Stamp(track, t)[..i]
      {
        SumSnoc(track, i);
        StampSnoc(track, t, i);
        absoluteTime := absoluteTime + track[i].time;
        events := events + [TimedEvent(absoluteTime, t, i, track[i])];
        i := i + 1;
      }
      assert Stamp(track, t)[..i] == Stamp(track, t);
      GatherSnoc(tracks, t);
      t := t + 1;
    }
    assert tracks[..t] == tracks;

    // Sort events by absolute time, stably.
    events := SortByTime(events);

    // Recompute delta times against the previously emitted event.
    var lastTime := 0;
    var k := 0;
    while k < |events|
      invariant 0 <= k <= |events|
      invariant lastTime == PreviousTime(events, k)
      invariant newTrack == Redelta(events)[..k]
    {
      var time, msg := events[k].abs, events[k].msg;
      newTrack := newTrack + [msg.(time := time - lastTime)];
      lastTime := time;
      k := k + 1;
    }
    assert newTrack == Redelta(events);

    // Replace all tracks with the single merged track.
    mid.tracks := [newTrack];
    r := mid;
  }

  /** Count: the merged track has exactly one message per input message,
      end-of-track markers included. */
  lemma MergedCount(tracks: seq<Track>)
    ensures |Merged(tracks)| == TotalEvents(tracks)
  {
    SortByTimePermutation(Gather(tracks));
    assert |Timeline(tracks)| == |multiset(Timeline(tracks))| == |multiset(Gather(tracks))|;
  }

  /** Nothing is dropped: message `i` of track `t` appears in the merged
      track, at the place of its own timeline event. With `MergedCount` this
      means no message is dropped or duplicated. */
  lemma MergedContains(tracks: seq<Track>, t: nat, i: nat)
    requires t < |tracks| && i < |tracks[t]|
    ensures exists k :: && 0 <= k < |Merged(tracks)|
                        && Timeline(tracks)[k].track == t && Timeline(tracks)[k].pos == i
                        && Merged(tracks)[k].payload == tracks[t][i].payload
  {
    GatherAt(tracks, t, i);
    var e := Gather(tracks)[TotalEvents(tracks[..t]) + i];
    MergedPermutation(tracks);
    assert e in multiset(Timeline(tracks));
    var k :| 0 <= k < |Timeline(tracks)| && Timeline(tracks)[k] == e;
    assert Merged(tracks)[k].payload == tracks[t][i].payload;
  }

  /** Sorted permutation: the timeline holds exactly the gathered events, each
      an input message stamped with its own track's prefix sum, and is
      ordered by absolute time. */
  lemma MergedPermutation(tracks: seq<Track>)
    ensures multiset(Timeline(tracks)) == multiset(Gather(tracks))
    ensures forall e :: e in Timeline(tracks) ==> FromTracks(tracks, e)
    ensures SortedByTime(Timeline(tracks))
  {
    GatherOrigin(tracks);
    SortByTimePermutation(Gather(tracks));
    SortByTimeSorted(Gather(tracks));
    forall e | e in Timeline(tracks)
      ensures FromTracks(tracks, e)
    {
      assert e in multiset(Timeline(tracks));
    }
  }

  /** Absolute times preserved: message `k` of the merged track carries the
      payload of the `k`-th event of the timeline, and the running sum of the
      merged deltas up to it is that event's absolute time. */
  lemma MergedAbsoluteTimes(tracks: seq<Track>, k: nat)
    requires k < |Merged(tracks)|
    ensures Merged(tracks)[k].payload == Timeline(tracks)[k].msg.payload
    ensures Sum(Merged(tracks)[..k + 1]) == Timeline(tracks)[k].abs
  {
    RedeltaAbsolute(Timeline(tracks), k);
  }

  /** Tie-break: the timeline is strictly ordered by (absolute time, track
      index, position in track). */
  lemma MergedTieBreak(tracks: seq<Track>)
    ensures KeySorted(Timeline(tracks))
  {
    GatherOriginOrdered(tracks);
    SortByTimeStable(Gather(tracks));
  }

  /** Any arrangement of the gathered events in the order (absolute time,
      track index, position in track) is the timeline: sorting stably by time
      alone and sorting by that order give the same result. */
  lemma TimelineUnique(tracks: seq<Track>, other: seq<TimedEvent>)
    requires KeySorted(other)
    requires multiset(other) == multiset(Gather(tracks))
    ensures other == Timeline(tracks)
  {
    MergedTieBreak(tracks);
    SortByTimePermutation(Gather(tracks));
    KeySortedUnique(other, Timeline(tracks));
  }

  /** Per-track order: two events from the same track appear in the merged
      order in their original order. */
  lemma MergedKeepsTrackOrder(tracks: seq<Track>)
    requires NonNegativeDeltas(tracks)
    ensures forall i, j :: 0 <= i < j < |Timeline(tracks)| && Timeline(tracks)[i].track == Timeline(tracks)[j].track
              ==> Timeline(tracks)[i].pos < Timeline(tracks)[j].pos
  {
    var tl := Timeline(tracks);
    MergedTieBreak(tracks);
    SortByTimePermutation(Gather(tracks));
    forall i, j | 0 <= i < j < |tl| && tl[i].track == tl[j].track
      ensures tl[i].pos < tl[j].pos
    {
      if tl[j].pos <= tl[i].pos {
        assert tl[i] in multiset(tl) && tl[j] in multiset(tl);
        GatherTrackMonotone(tracks, tl[j], tl[i]);
      }
    }
  }

  /** Non-negative deltas: with non-negative input deltas every merged delta
      is non-negative. */
  lemma MergedNonNegative(tracks: seq<Track>)
    requires NonNegativeDeltas(tracks)
    ensures forall k :: 0 <= k < |Merged(tracks)| ==> Merged(tracks)[k].time >= 0
  {
    var tl := Timeline(tracks);
    MergedPermutation(tracks);
    if tl != [] {
      assert tl[0] in multiset(tl);
      GatherNonNegative(tracks, tl[0]);
    }
    RedeltaNonNegative(tl);
  }

  /** Re-deltaing one stamped track restores its original deltas. */
  lemma RedeltaOfStamp(track: Track)
    ensures Redelta(Stamp(track, 0)) == track
  {
    var st := Stamp(track, 0);
    var r := Redelta(st);
    forall k | 0 <= k < |track|
      ensures r[k] == track[k]
    {
      SumSnoc(track, k);
      if k == 0 {
        assert track[..0] == [];
      }
    }
  }

  /** Single-track identity: merging one track whose deltas after the first
      are non-negative gives back that track unchanged. The first delta may be
      anything, since it shifts every absolute time alike. */
  lemma SingleTrackIdentity(track: Track)
    requires forall k :: 1 <= k < |track| ==> track[k].time >= 0
    ensures Merged([track]) == track
  {
    var st := Stamp(track, 0);
    assert [track][..0] == [];
    assert Gather([track]) == st;
    StampSorted(track);
    SortByTimeOfSorted(st);
    RedeltaOfStamp(track);
  }

  /** A track whose deltas after the first are non-negative stamps into a
      time-sorted list. */
  lemma StampSorted(track: Track)
    requires forall k :: 1 <= k < |track| ==> track[k].time >= 0
    ensures SortedByTime(Stamp(track, 0))
  {
    var st := Stamp(track, 0);
    forall i, j | 0 <= i < j < |st|
      ensures st[i].abs <= st[j].abs
    {
      SumMonotone(track, i + 1, j + 1);
    }
  }

  /** The encoding of the end-of-track meta event. */
  const EndOfTrack: seq<Byte> := [0xFF, 0x2F, 0x00]

  /** Two tracks of a file at 480 ticks per beat: A plays a note from tick 0
      to 480, B plays another from tick 240 to 480, and each ends with an
      end-of-track marker. Merging keeps all six messages, orders the ties at
      tick 480 by track index, and leaves track A's end-of-track marker in
      the middle of the merged track, followed by B's note-off and B's own
      end-of-track marker. */
  lemma TwoTrackExample(a: Track, b: Track)
    requires |a| == 3 && a[0].time == 0 && a[1].time == 480 && a[2].time == 0
    requires |b| == 3 && b[0].time == 240 && b[1].time == 240 && b[2].time == 0
    requires a[2].payload == EndOfTrack && b[2].payload == EndOfTrack
    ensures Merged([a, b]) == [a[0], b[0], a[1].(time := 240), a[2], b[1].(time := 0), b[2]]
  {
    TwoTrackTimeline(a, b);
    var tl := Timeline([a, b]);
    RedeltaSix(tl);
  }

  /** The deltas of a six-event timeline, written out. */
  lemma RedeltaSix(s: seq<TimedEvent>)
    requires |s| == 6
    ensures Redelta(s)
            == [s[0].msg.(time := s[0].abs), s[1].msg.(time := s[1].abs - s[0].abs),
                s[2].msg.(time := s[2].abs - s[1].abs), s[3].msg.(time := s[3].abs - s[2].abs),
                s[4].msg.(time := s[4].abs - s[3].abs), s[5].msg.(time := s[5].abs - s[4].abs)]
  {
  }

  /** The timeline of the two tracks above: ties at tick 480 go to track A first. */
  lemma TwoTrackTimeline(a: Track, b: Track)
    requires |a| == 3 && a[0].time == 0 && a[1].time == 480 && a[2].time == 0
    requires |b| == 3 && b[0].time == 240 && b[1].time == 240 && b[2].time == 0
    ensures Timeline([a, b])
            == [TimedEvent(0, 0, 0, a[0]), TimedEvent(240, 1, 0, b[0]), TimedEvent(480, 0, 1, a[1]),
                TimedEvent(480, 0, 2, a[2]), TimedEvent(480, 1, 1, b[1]), TimedEvent(480, 1, 2, b[2])]
  {
    var a0, a1, a2 := TimedEvent(0, 0, 0, a[0]), TimedEvent(480, 0, 1, a[1]), TimedEvent(480, 0, 2, a[2]);
    var b0, b1, b2 := TimedEvent(240, 1, 0, b[0]), TimedEvent(480, 1, 1, b[1]), TimedEvent(480, 1, 2, b[2]);
    var expected := [a0, b0, a1, a2, b1, b2];
    TwoTrackGather(a, b);
    assert multiset(expected) == multiset([a0, a1, a2, b0, b1, b2]) by {
      assert expected == [a0] + [b0] + [a1, a2] + [b1, b2];
      assert [a0, a1, a2, b0, b1, b2] == [a0] + [a1, a2] + [b0] + [b1, b2];
    }
    TwoTrackKeySorted(a, b);
    TimelineUnique([a, b], expected);
  }

  /** The gathered events of the two tracks above. */
  lemma TwoTrackGather(a: Track, b: Track)
    requires |a| == 3 && a[0].time == 0 && a[1].time == 480 && a[2].time == 0
    requires |b| == 3 && b[0].time == 240 && b[1].time == 240 && b[2].time == 0
    ensures Gather([a, b])
            == [TimedEvent(0, 0, 0, a[0]), TimedEvent(480, 0, 1, a[1]), TimedEvent(480, 0, 2, a[2]),
                TimedEvent(240, 1, 0, b[0]), TimedEvent(480, 1, 1, b[1]), TimedEvent(480, 1, 2, b[2])]
  {
    StampExample(a, 0, 480, 480);
    StampExample(b, 240, 480, 480);
    assert [a, b][..1] == [a] && [a][..0] == [];
  }

  /** The arrangement claimed for the two tracks above is in key order. */
  lemma TwoTrackKeySorted(a: Track, b: Track)
    requires |a| == 3 && |b| == 3
    ensures KeySorted([TimedEvent(0, 0, 0, a[0]), TimedEvent(240, 1, 0, b[0]), TimedEvent(480, 0, 1, a[1]),
                       TimedEvent(480, 0, 2, a[2]), TimedEvent(480, 1, 1, b[1]), TimedEvent(480, 1, 2, b[2])])
  {
    var s := [TimedEvent(0, 0, 0, a[0]), TimedEvent(240, 1, 0, b[0]), TimedEvent(480, 0, 1, a[1]),
              TimedEvent(480, 0, 2, a[2]), TimedEvent(480, 1, 1, b[1]), TimedEvent(480, 1, 2, b[2])];
    forall i | 0 <= i < |s| - 1
      ensures KeyBefore(s[i], s[i + 1])
    {
      assert i == 0 || i == 1 || i == 2 || i == 3 || i == 4;
    }
    KeySortedFromNeighbours(s);
  }

  /** The stamped form of a three-message track with the given prefix sums. */
  lemma StampExample(track: Track, s1: int, s2: int, s3: int)
    requires |track| == 3
    requires s1 == track[0].time && s2 == s1 + track[1].time && s3 == s2 + track[2].time
    ensures forall t: nat :: Stamp(track, t)
              == [TimedEvent(s1, t, 0, track[0]), TimedEvent(s2, t, 1, track[1]), TimedEvent(s3, t, 2, track[2])]
  {
    assert track[..0] == [];
    SumSnoc(track, 0);
    SumSnoc(track, 1);
    SumSnoc(track, 2);
    assert track[..3] == track;
  }
}
