# MIDI track merger, modelled in Dafny

This project models `merge_tracks` from the MIDI track merger. The function collapses all tracks of a loaded MIDI file into one track. It works in three steps:

1. **Absolute times.** Each track's delta times become absolute ticks through a running sum. The sum restarts at 0 for every track. Every `(absolute_time, msg)` pair goes onto one list, track after track.
2. **Sort.** That list is sorted by absolute time with a stable sort, so ties keep the order in which the pairs were gathered.
3. **New deltas.** Each message's time is overwritten with its absolute time minus the previous emitted absolute time. The previous time starts at 0. The file's track list is then replaced by the single new track.

Modules, one per step plus the data and the top level:

- `MidiTypes` (midi_types.dfy) holds the data.
  - `Message` is a delta time plus an opaque payload.
  - `Track` is a sequence of messages.
  - `TimedEvent` is a message with its absolute tick and its origin: track index and position within that track.
  - `Sum` gives a track prefix's absolute tick.
- `AbsoluteTimes` (absolute_times.dfy) is step 1. `Gather` is the concatenated list of stamped events.
- `StableSort` (stable_sort.dfy) is step 2.
  - `SortByTime` is a stable insertion sort. Its key is the absolute time alone, like the source's `key=lambda x: x[0]`.
  - The order (absolute time, track index, position) is derived from stability. It is not a second key.
- `Deltas` (deltas.dfy) is step 3. `Redelta` recomputes the deltas.
- `Merger` (merger.dfy) is the top level.
  - `MidiFile` is a class whose `tracks` field is replaced in place.
  - `MergeTracks` is the imperative method: the source's three loops and the sort call, proved equal to the function `Merged`.
  - The lemmas state the properties of the merge.

Message times are unbounded integers, as in the host language. Tracks read from a Standard MIDI File always have non-negative deltas. The lemmas that need this say so with `NonNegativeDeltas`.

Two behaviours of the code worth stating plainly:

- **First delta.** The first merged delta is the first absolute time minus 0, not a forced 0. For example, a single track whose first delta is 100 merges to a track whose first delta is still 100 (`SingleTrackIdentity`).
- **End-of-track markers.** They are not deduplicated. Every input message survives, including each track's end-of-track marker. A marker can end up in the middle of the merged track. `TwoTrackExample` merges two tracks (A: a note from tick 0 to 480, B: a note from 240 to 480) and keeps all six messages, with A's end-of-track marker fourth.

## Model

| member | source | states |
|---|---|---|
| `Merger.MergeTracks` | midimerger.py:5-28 | The file's track list becomes exactly one track, `Merged` of the old tracks. The same file object is returned. Its format and ticks-per-beat are unchanged. |
| `AbsoluteTimes.Stamp` | midimerger.py:11-14 | No contract of its own. Definition: message `i` of one track, stamped with the sum of that track's deltas up to and including it (a running sum from 0), its track index and its position. `GatherAt` states this for the gathered list. |
| `AbsoluteTimes.Gather` | midimerger.py:10-14 | The gathered list has exactly one entry per input message: its length is the total message count of all tracks. |
| `AbsoluteTimes.GatherAt` | midimerger.py:10-14 | Message `i` of track `t` sits at offset (messages of earlier tracks) + `i` of the gathered list. Its absolute time is the sum of its own track's deltas up to and including it, starting from 0. |
| `AbsoluteTimes.GatherOrigin` | midimerger.py:10-14 | Every gathered event is an input message with its track's prefix-sum time. |
| `AbsoluteTimes.GatherOriginOrdered` | midimerger.py:10-14 | The gathered list is in concatenation order: by track index, then by position in the track. |
| `AbsoluteTimes.GatherTrackMonotone` | midimerger.py:11-14 | With non-negative deltas, a later message of a track never has an earlier absolute time. |
| `AbsoluteTimes.GatherNonNegative` | midimerger.py:11-14 | With non-negative deltas, every absolute time is at least 0. |
| `StableSort.SortByTime` | midimerger.py:17 | No contract of its own. Definition: a stable insertion sort whose key is the absolute time alone, like `key=lambda x: x[0]`. `SortByTimePermutation`, `SortByTimeSorted`, `SortByTimeStable` and `SortByTimeOfSorted` state its properties. |
| `StableSort.SortByTimePermutation` | midimerger.py:17 | The sort's result is a permutation (same multiset) of its input. |
| `StableSort.SortByTimeSorted` | midimerger.py:17 | The sort's result is non-decreasing in absolute time. |
| `StableSort.SortByTimeStable` | midimerger.py:17 | Stability: input in concatenation order sorts into strict (absolute time, track, position) order. |
| `StableSort.KeySortedUnique` | midimerger.py:17 | Two strictly (time, track, position)-ordered arrangements of the same events are equal. |
| `StableSort.SortByTimeOfSorted` | midimerger.py:17 | Sorting a list already ordered by time leaves it unchanged. |
| `Deltas.Redelta` | midimerger.py:20-24 | One message per event, in order. Message `k` is event `k`'s message with its time replaced by `abs[k] - abs[k-1]`, or by `abs[0] - 0` for the first. `RedeltaAbsolute` states what these deltas add up to. |
| `Deltas.RedeltaAbsolute` | midimerger.py:20-24 | The running sum of the new deltas up to position `k` is the `k`-th absolute time. In particular, the first delta is the first absolute time. |
| `Deltas.RedeltaNonNegative` | midimerger.py:20-24 | For a time-sorted list whose first time is at least 0, every new delta is non-negative. |
| `Merger.Timeline` | midimerger.py:10-17 | No contract of its own. Definition: `SortByTime(Gather(tracks))`, the gathered events sorted by time. `MergedPermutation`, `MergedTieBreak` and `TimelineUnique` state its properties. |
| `Merger.Merged` | midimerger.py:10-24 | No contract of its own. Definition: `Redelta(Timeline(tracks))`, the single merged track. `MergeTracks` is proved equal to it, and the `Merged…` lemmas state its properties. |
| `Merger.MergedCount` | midimerger.py:10-24 | The merged track has exactly as many messages as all input tracks together, end-of-track markers included. Together with `MergedContains`, no message is dropped or duplicated. |
| `Merger.MergedContains` | midimerger.py:10-24 | Message `i` of track `t` appears in the merged track, with its payload, at the place of the timeline event for (track `t`, position `i`). |
| `Merger.MergedPermutation` | midimerger.py:10-17 | The timeline holds exactly the gathered events. Each is an input message with its own track's prefix-sum time. The timeline is ordered by absolute time. |
| `Merger.MergedAbsoluteTimes` | midimerger.py:20-24 | Merged message `k` has the payload of timeline event `k`. The running sum of merged deltas up to `k` is that event's absolute time. |
| `Merger.MergedTieBreak` | midimerger.py:10-17 | The timeline is strictly ordered by (absolute time, track index, position in track): ties go to the lower track, then to the earlier position. |
| `Merger.TimelineUnique` | midimerger.py:17 | Any (time, track, position)-ordered arrangement of the gathered events is the timeline. |
| `Merger.MergedKeepsTrackOrder` | midimerger.py:10-17 | With non-negative deltas, two events from the same track keep their original relative order. |
| `Merger.MergedNonNegative` | midimerger.py:17-24 | With non-negative input deltas, every merged delta is non-negative. |
| `Merger.RedeltaOfStamp` | midimerger.py:10-24 | Recomputing deltas of one stamped track restores its original messages. |
| `Merger.StampSorted` | midimerger.py:11-14 | A track whose deltas after the first are non-negative stamps into a list ordered by absolute time. |
| `Merger.SingleTrackIdentity` | midimerger.py:10-24 | Merging a single track whose deltas after the first are non-negative gives back the same messages with the same deltas; the first delta may be negative. |
| `Merger.TwoTrackExample` | midimerger.py:10-24 | A concrete two-track case: track A holds a note from tick 0 to 480, track B a note from 240 to 480. The merge keeps all six messages. The ties at tick 480 come out as A's note-off, A's end-of-track, B's note-off, B's end-of-track, with deltas 240, 0, 0, 0. |
| `Merger.TwoTrackTimeline` | midimerger.py:10-17 | The sorted timeline of that two-track case, with ties at tick 480 in track order. |

## Left out

- `main()` (midimerger.py:31-50) is left out: argument parsing, printing, and loading and saving the file are I/O around the merge.
- Parsing and saving Standard MIDI Files is left out: variable-length quantities, chunk layout, running status and error kinds all live inside the `mido` library. That library is not part of this model. `MidiFile` keeps the track list, which the merge replaces, plus the two header fields (format and ticks per beat) that the merge must leave as they were.
- Object identity is not modelled. Messages are values here. The source overwrites `time` on the message objects themselves, so a caller holding one of the old track lists would see its times change. If one message object appeared twice in the input, the source's last write would apply to both places; the model treats the two as independent values.
- Python's built-in sort (Timsort) is modelled by a stable insertion sort on the same key. `TimelineUnique` shows that every stable sort by time gives the same order here, because stability forces the (time, track, position) order.
- Each `TimedEvent` also carries its track index and position. The source's list holds only `(absolute_time, msg)`. The extra fields name each event's origin for the lemmas; the sort never reads them.
- Non-integer message times are not modelled. `mido` accepts float times on hand-built messages; times read from a file are integers.
- `Merger.MergedNonNegative`: assumes non-negative input deltas, which every track read from a file has. A hand-built track with a negative delta can produce a negative merged delta.
- `Merger.MergedKeepsTrackOrder`: assumes non-negative input deltas. With a negative delta, the sort can move a track's later message ahead of an earlier one.
- `Merger.SingleTrackIdentity`: assumes every delta after the first message is non-negative. A negative delta there can make the sort reorder the track.
