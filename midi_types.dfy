// Values the track merger works on: messages, tracks, and messages
// stamped with their absolute tick and their place of origin.

module MidiTypes {

  /** One byte of a message's encoded form. */
  newtype Byte = b: int | 0 <= b < 256

  /** A MIDI message: its delta time in ticks (an unbounded integer, as in
      the host language) and a payload that the merger never looks into. */
  datatype Message = Message(time: int, payload: seq<Byte>)

  /** A track is its messages in order, each timed relative to the one before. */
  type Track = seq<Message>

  /** A message with the absolute tick the merger attached to it. `track` and
      `pos` say where it came from (track index, position in that track); the
      sort never looks at them. */
  datatype TimedEvent = TimedEvent(abs: int, track: nat, pos: nat, msg: Message)

  /** The sum of the delta times of `s`: the absolute tick of its last message
      when the track starts at tick 0. */
  function Sum(s: Track): int
  {
    if s == [] then 0 else Sum(s[..|s| - 1]) + s[|s| - 1].time
  }

  /** Every delta time in every track is non-negative, as it is in any track
      read from a Standard MIDI File (delta times are unsigned there). */
  predicate NonNegativeDeltas(tracks: seq<Track>)
  {
    forall t, i :: 0 <= t < |tracks| && 0 <= i < |tracks[t]| ==> tracks[t][i].time >= 0
  }

  /** `a` comes before `b` when the input tracks are concatenated in order. */
  predicate OriginBefore(a: TimedEvent, b: TimedEvent)
  {
    a.track < b.track || (a.track == b.track && a.pos < b.pos)
  }

  /** The events appear strictly in concatenation order. */
  predicate OriginOrdered(s: seq<TimedEvent>)
  {
    forall i, j :: 0 <= i < j < |s| ==> OriginBefore(s[i], s[j])
  }

  /** Extending a prefix by one message adds that message's delta. */
  lemma SumSnoc(s: Track, i: nat)
    requires i < |s|
    ensures Sum(s[..i + 1]) == Sum(s[..i]) + s[i].time
  {
    assert s[..i + 1][..i] == s[..i];
  }

  /** With non-negative deltas between positions `i` and `j`, absolute time
      does not decrease from the one prefix to the other. */
  lemma {:induction false} SumMonotone(s: Track, i: nat, j: nat)
    requires i <= j <= |s|
    requires forall k :: i <= k < j ==> s[k].time >= 0
    ensures Sum(s[..i]) <= Sum(s[..j])
  {
    if i < j {
      SumMonotone(s, i, j - 1);
      SumSnoc(s, j - 1);
    }
  }
}
