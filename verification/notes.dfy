/** The records passed between pitch detection, quantisation and notation:
    `PitchEvent` and `MusicalNote` of `backend/app/models/music.py`, with the
    views of a note list that the quantiser and notation generator reason about. */
module Notes {
  import opened Outcomes
  import opened MusicTheory

  /** A detected pitch: frequency in Hz, start and length in seconds. */
  datatype PitchEvent = PitchEvent(frequency: real, startTime: real, duration: real, confidence: real)

  /** A quantised note or rest. `duration` is a grid code, with an `r` suffix on
      rests; `quantizedNote` is `"rest"` for rests and `name + octave` otherwise. */
  datatype MusicalNote = MusicalNote(
    pitch: string,
    octave: int,
    duration: string,
    startTime: real,
    originalFrequency: Option<real>,
    quantizedNote: Option<string>)

  /** `note.quantized_note == 'rest'`. */
  predicate IsRest(n: MusicalNote)
  {
    n.quantizedNote == Some("rest")
  }

  /** The placement of a note in time: everything quantisation fixes and
      melodic smoothing never touches. */
  datatype Timing = Timing(rest: bool, startTime: real, duration: string, originalFrequency: Option<real>)

  function TimingOf(n: MusicalNote): Timing
  {
    Timing(IsRest(n), n.startTime, n.duration, n.originalFrequency)
  }

  function Timings(notes: seq<MusicalNote>): (ts: seq<Timing>)
    ensures |ts| == |notes|
    ensures forall k :: 0 <= k < |notes| ==> ts[k] == TimingOf(notes[k])
  {
    seq(|notes|, k requires 0 <= k < |notes| => TimingOf(notes[k]))
  }

  lemma TimingsAppend(a: seq<MusicalNote>, b: seq<MusicalNote>)
    ensures Timings(a + b) == Timings(a) + Timings(b)
  {
  }

  /** The timings of the notes that are not rests, in order. */
  function PitchedTimings(ts: seq<Timing>): (r: seq<Timing>)
    ensures |r| <= |ts|
  {
    if |ts| == 0 then []
    else PitchedTimings(ts[..|ts| - 1]) + (if ts[|ts| - 1].rest then [] else [ts[|ts| - 1]])
  }

  lemma {:induction false} PitchedTimingsAppend(a: seq<Timing>, b: seq<Timing>)
    ensures PitchedTimings(a + b) == PitchedTimings(a) + PitchedTimings(b)
    decreases |b|
  {
    if |b| > 0 {
      var ab := a + b;
      assert ab[..|ab| - 1] == a + b[..|b| - 1];
      assert ab[|ab| - 1] == b[|b| - 1];
      PitchedTimingsAppend(a, b[..|b| - 1]);
    } else {
      assert a + b == a;
    }
  }

  /** Rests followed by one pitched timing add just that timing. */
  lemma PitchedAfterRests(a: seq<Timing>, rests: seq<Timing>, t: Timing)
    requires forall i :: 0 <= i < |rests| ==> rests[i].rest
    requires !t.rest
    ensures PitchedTimings(a + rests + [t]) == PitchedTimings(a) + [t]
  {
    var ar := a + rests;
    assert (ar + [t])[..|ar + [t]| - 1] == ar;
    PitchedTimingsAppend(a, rests);
    NoPitched(rests);
    assert PitchedTimings(a) + [] == PitchedTimings(a);
  }

  lemma {:induction false} NoPitched(ts: seq<Timing>)
    requires forall i :: 0 <= i < |ts| ==> ts[i].rest
    ensures PitchedTimings(ts) == []
    decreases |ts|
  {
    if |ts| > 0 {
      NoPitched(ts[..|ts| - 1]);
    }
  }

  /** The number of notes that are not rests. */
  function CountPitched(notes: seq<MusicalNote>): (c: nat)
    ensures c <= |notes|
  {
    if |notes| == 0 then 0
    else CountPitched(notes[..|notes| - 1]) + (if IsRest(notes[|notes| - 1]) then 0 else 1)
  }

  lemma {:induction false} CountPitchedIsPitchedTimings(notes: seq<MusicalNote>)
    ensures CountPitched(notes) == |PitchedTimings(Timings(notes))|
    decreases |notes|
  {
    if |notes| > 0 {
      var n := |notes|;
      assert Timings(notes)[..n - 1] == Timings(notes[..n - 1]);
      CountPitchedIsPitchedTimings(notes[..n - 1]);
    }
  }

  /** End of a note in seconds at `beat` seconds per quarter beat. */
  function EndTime(t: Timing, beat: real): real
  {
    t.startTime + DurationBeats(t.duration) * beat
  }
}
