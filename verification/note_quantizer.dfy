/** `NoteQuantizer` of `backend/app/services/note_quantizer.py`: detected pitch
    events become quantised notes, with rests for silent gaps and a final pass
    that pulls excessive octave jumps back towards the previous note.

    `frequency_to_midi` rests on librosa's `hz_to_midi`; every operation here
    takes that conversion as a parameter `hzToMidi` (see
    `MusicTheory.FrequencyToMidi`), so the results hold whatever it computes. */
module NoteQuantizer {
  import opened Outcomes
  import opened Arith
  import opened Decimal
  import opened MusicTheory
  import opened Viterbi
  import opened TimeSignature
  import opened Notes

  /** `ALL_CHROMATIC`: the allowed names when none are given. */
  const AllChromatic: seq<string> := SharpNames

  /** `max_jump_semitones`' default, the only value `quantize_pitches` uses. */
  const MaxJumpSemitones: int := 12

  /** The state `__init__` sets up. */
  datatype Quantizer = Quantizer(
    allowedNotes: seq<string>,
    tempo: real,
    allowedMidi: seq<int>,
    beatsPerMeasure: real)

  // ---------------------------------------------------------------------------
  // Construction
  // ---------------------------------------------------------------------------

  /** The names `__init__` works with: the given list, or every chromatic name. */
  function AllowedNames(allowedNotes: Option<seq<string>>): seq<string>
  {
    if allowedNotes.None? then AllChromatic else allowedNotes.value
  }

  /** `NoteQuantizer.__init__`: the allowed set is checked before the time
      signature is read, so an empty allowed set is reported first. */
  function NewQuantizer(allowedNotes: Option<seq<string>>, tempo: real, timeSignature: string): (r: Result<Quantizer>)
    ensures r.Success? ==> |r.value.allowedMidi| > 0
  {
    var names := AllowedNames(allowedNotes);
    var midi := GetAllowedMidiNotes(names);
    if |midi| == 0 then Failure(NoValidAllowedNotes)
    else
      match ParseTimeSignature(timeSignature)
      case Failure(e) => Failure(e)
      case Success(bpm) => Success(Quantizer(names, tempo, midi, bpm))
  }

  /** The allowed MIDI set is empty exactly when no name is a known spelling. */
  lemma AllowedMidiEmptyIff(names: seq<string>)
    ensures |GetAllowedMidiNotes(names)| == 0 <==> forall k :: 0 <= k < |names| ==> names[k] !in NoteMap
  {
    if k :| 0 <= k < |names| && names[k] in NoteMap {
      KnownNameAllowed(names, k);
    }
    if |GetAllowedMidiNotes(names)| > 0 {
      AllowedHasKnownName(names);
    }
  }

  lemma KnownNameAllowed(names: seq<string>, k: int)
    requires 0 <= k < |names| && names[k] in NoteMap
    ensures |GetAllowedMidiNotes(names)| > 0
  {
    assert NoteNameToMidi(names[k], 0).Success?;
    assert Spells(names, NoteNameToMidi(names[k], 0).value);
  }

  lemma AllowedHasKnownName(names: seq<string>)
    requires |GetAllowedMidiNotes(names)| > 0
    ensures exists k :: 0 <= k < |names| && names[k] in NoteMap
  {
    var r := GetAllowedMidiNotes(names);
    assert r[0] in r;
    assert Spells(names, r[0]);
  }

  /** Construction is rejected for want of allowed notes exactly when no
      allowed name is a known spelling. */
  lemma NewQuantizerRejects(allowedNotes: Option<seq<string>>, tempo: real, timeSignature: string)
    ensures var names := AllowedNames(allowedNotes);
      NewQuantizer(allowedNotes, tempo, timeSignature) == Failure(NoValidAllowedNotes) <==>
        forall k :: 0 <= k < |names| ==> names[k] !in NoteMap
  {
    AllowedMidiEmptyIff(AllowedNames(allowedNotes));
    ParseErrorKinds(timeSignature);
  }

  /** With no list given, construction never lacks allowed notes. */
  lemma NewQuantizerDefaultAllowed(tempo: real, timeSignature: string)
    ensures NewQuantizer(None, tempo, timeSignature) != Failure(NoValidAllowedNotes)
  {
    SharpNameToMidi(0, 0);
    assert AllChromatic[0] in NoteMap;
    NewQuantizerRejects(None, tempo, timeSignature);
  }

  /** With a known spelling among the names, the outcome is the time
      signature's: its error, or `n * 4 / d` beats per measure. */
  lemma NewQuantizerReadsSignature(allowedNotes: Option<seq<string>>, tempo: real, timeSignature: string)
    requires exists k :: 0 <= k < |AllowedNames(allowedNotes)| && AllowedNames(allowedNotes)[k] in NoteMap
    ensures var names := AllowedNames(allowedNotes);
      match ParseTimeSignature(timeSignature)
      case Failure(e) => NewQuantizer(allowedNotes, tempo, timeSignature) == Failure(e)
      case Success(bpm) => NewQuantizer(allowedNotes, tempo, timeSignature) == Success(Quantizer(names, tempo, GetAllowedMidiNotes(names), bpm))
  {
    AllowedMidiEmptyIff(AllowedNames(allowedNotes));
  }

  /** Reading a time signature fails only as malformed or with a zero denominator. */
  lemma ParseErrorKinds(text: string)
    ensures ParseTimeSignature(text).Failure? ==>
      ParseTimeSignature(text).error == MalformedTimeSignature(text) || ParseTimeSignature(text).error == ZeroDenominator
  {
  }

  // ---------------------------------------------------------------------------
  // Sorting by start time
  // ---------------------------------------------------------------------------

  predicate SortedByStart(s: seq<PitchEvent>)
  {
    forall i, j :: 0 <= i < j < |s| ==> s[i].startTime <= s[j].startTime
  }

  /** Insert `e` after every element that does not start later than it. */
  function Insert(sorted: seq<PitchEvent>, e: PitchEvent): (r: seq<PitchEvent>)
    requires SortedByStart(sorted)
    ensures |r| == |sorted| + 1
    ensures SortedByStart(r)
    ensures multiset(r) == multiset(sorted) + multiset{e}
    ensures forall x :: x in r ==> x in sorted || x == e
  {
    if |sorted| == 0 then [e]
    else if e.startTime < sorted[0].startTime then
      ConsSorted(e, sorted);
      [e] + sorted
    else
      var rest := Insert(sorted[1..], e);
      assert forall i :: 0 <= i < |rest| ==> sorted[0].startTime <= rest[i].startTime by {
        forall i | 0 <= i < |rest| ensures sorted[0].startTime <= rest[i].startTime {
          assert rest[i] in sorted[1..] || rest[i] == e;
        }
      }
      ConsSorted(sorted[0], rest);
      assert sorted == [sorted[0]] + sorted[1..];
      [sorted[0]] + rest
  }

  /** An event no later than every element of a sorted list may go in front. */
  lemma ConsSorted(h: PitchEvent, s: seq<PitchEvent>)
    requires SortedByStart(s)
    requires forall i :: 0 <= i < |s| ==> h.startTime <= s[i].startTime
    ensures SortedByStart([h] + s)
  {
    var r := [h] + s;
    forall i, j | 0 <= i < j < |r| ensures r[i].startTime <= r[j].startTime {
      assert r[j] == s[j - 1];
      if i > 0 {
        assert r[i] == s[i - 1];
      }
    }
  }

  /** `sorted(pitch_events, key=lambda e: e.start_time)`, an insertion sort. */
  function SortByStart(events: seq<PitchEvent>): (r: seq<PitchEvent>)
    ensures |r| == |events|
    ensures SortedByStart(r)
    ensures multiset(r) == multiset(events)
  {
    if |events| == 0 then []
    else
      var n := |events|;
      assert events == events[..n - 1] + [events[n - 1]];
      Insert(SortByStart(events[..n - 1]), events[n - 1])
  }

  /** The events starting at time `t`, in order. */
  function StartingAt(s: seq<PitchEvent>, t: real): seq<PitchEvent>
  {
    if |s| == 0 then []
    else (if s[0].startTime == t then [s[0]] else []) + StartingAt(s[1..], t)
  }

  lemma {:induction false} StartingAtAppend(a: seq<PitchEvent>, b: seq<PitchEvent>, t: real)
    ensures StartingAt(a + b, t) == StartingAt(a, t) + StartingAt(b, t)
    decreases |a|
  {
    if |a| > 0 {
      assert (a + b)[1..] == a[1..] + b;
      StartingAtAppend(a[1..], b, t);
    } else {
      assert a + b == b;
    }
  }

  lemma {:induction false} StartingAtNone(s: seq<PitchEvent>, t: real)
    requires forall i :: 0 <= i < |s| ==> s[i].startTime > t
    ensures StartingAt(s, t) == []
    decreases |s|
  {
    if |s| > 0 {
      StartingAtNone(s[1..], t);
    }
  }

  lemma {:induction false} InsertStable(sorted: seq<PitchEvent>, e: PitchEvent, t: real)
    requires SortedByStart(sorted)
    ensures StartingAt(Insert(sorted, e), t) == StartingAt(sorted, t) + StartingAt([e], t)
    decreases |sorted|
  {
    if |sorted| == 0 {
    } else if e.startTime < sorted[0].startTime {
      assert ([e] + sorted)[1..] == sorted;
      if e.startTime == t {
        StartingAtNone(sorted, t);
      }
    } else {
      var rest := Insert(sorted[1..], e);
      var r := [sorted[0]] + rest;
      assert r == Insert(sorted, e);
      assert r[1..] == rest;
      InsertStable(sorted[1..], e, t);
      var head := if sorted[0].startTime == t then [sorted[0]] else [];
      assert StartingAt(r, t) == head + StartingAt(rest, t);
      assert StartingAt(sorted, t) == head + StartingAt(sorted[1..], t);
    }
  }

  /** The sort is stable: events with equal start times keep their input order. */
  lemma {:induction false} SortByStartStable(events: seq<PitchEvent>, t: real)
    ensures StartingAt(SortByStart(events), t) == StartingAt(events, t)
    decreases |events|
  {
    if |events| > 0 {
      var n := |events|;
      SortByStartStable(events[..n - 1], t);
      InsertStable(SortByStart(events[..n - 1]), events[n - 1], t);
      assert events == events[..n - 1] + [events[n - 1]];
      StartingAtAppend(events[..n - 1], [events[n - 1]], t);
    }
  }

  // ---------------------------------------------------------------------------
  // Pass 2: notes and rests
  // ---------------------------------------------------------------------------

  /** `f"{note_name}{octave}"`. */
  function NoteLabel(name: string, octave: int): string
  {
    name + IntToString(octave)
  }

  /** A label built from a sharp spelling never reads `"rest"`. */
  lemma NoteLabelNotRest(name: string, octave: int)
    requires name in SharpNames
    ensures NoteLabel(name, octave) != "rest"
  {
    assert NoteLabel(name, octave)[0] == name[0];
  }

  /** The rest `quantize_pitches` inserts: pitch `b`, octave 4, no frequency. */
  function RestNote(code: string, start: real): (n: MusicalNote)
    ensures IsRest(n)
  {
    MusicalNote("b", 4, code + "r", start, None, Some("rest"))
  }

  /** The rest before `event`, when the gap since the end of the last note is
      at least a quarter beat. */
  function RestBefore(tempo: real, notes: seq<MusicalNote>, event: PitchEvent): (r: seq<MusicalNote>)
    requires tempo != 0.0
    ensures |r| <= 1
  {
    if |notes| == 0 then []
    else
      var beat := BeatSeconds(tempo);
      var prevEnd := EndTime(TimingOf(notes[|notes| - 1]), beat);
      var gap := event.startTime - prevEnd;
      if gap >= 0.25 * beat then [RestNote(QuantizeDuration(gap, tempo), prevEnd)] else []
  }

  /** The allowed MIDI number nearest to `frequency`. */
  function SnapMidi(allowedMidi: seq<int>, hzToMidi: real -> int, frequency: real): int
  {
    FindNearestAllowedNote(FrequencyToMidi(hzToMidi, frequency), allowedMidi)
  }

  /** The pitched note for `event`: nearest allowed MIDI number, named with a
      sharp spelling, with the Viterbi duration `code`. */
  function SnapNote(allowedMidi: seq<int>, hzToMidi: real -> int, event: PitchEvent, code: string): (n: MusicalNote)
    ensures !IsRest(n)
  {
    var named := MidiToNoteName(SnapMidi(allowedMidi, hzToMidi, event.frequency));
    MidiNameRoundTrip(SnapMidi(allowedMidi, hzToMidi, event.frequency));
    NoteLabelNotRest(named.0, named.1);
    MusicalNote(named.0, named.1, code, event.startTime, Some(event.frequency), Some(NoteLabel(named.0, named.1)))
  }

  /** One iteration of pass 2: the rest before `event`, if any, then its note. */
  function AddEvent(q: Quantizer, hzToMidi: real -> int, acc: seq<MusicalNote>, event: PitchEvent, code: string): seq<MusicalNote>
    requires q.tempo != 0.0
  {
    acc + RestBefore(q.tempo, acc, event) + [SnapNote(q.allowedMidi, hzToMidi, event, code)]
  }

  /** The pitched note names an allowed MIDI number. */
  predicate InAllowed(n: MusicalNote, allowedMidi: seq<int>)
  {
    NoteNameToMidi(n.pitch, n.octave).Success? && NoteNameToMidi(n.pitch, n.octave).value in allowedMidi
  }

  /** Where rests sit: a rest lies between two notes, starts where the note
      before it ends, fills a gap of at least a quarter beat and carries the
      greedy code of that gap; two notes with no rest between them leave less
      than a quarter beat of silence. */
  ghost predicate RestsWellPlaced(ts: seq<Timing>, tempo: real)
    requires tempo != 0.0
  {
    && (forall k :: 0 <= k < |ts| ==> RestPlacedAt(ts, tempo, k))
    && (forall k :: 0 <= k < |ts| - 1 ==> GapShortAt(ts, tempo, k))
  }

  /** Entry `k`, if a rest, lies between two notes and fills the gap between them. */
  ghost predicate RestPlacedAt(ts: seq<Timing>, tempo: real, k: int)
    requires tempo != 0.0 && 0 <= k < |ts|
  {
    ts[k].rest ==> 0 < k < |ts| - 1 && RestBetween(ts[k - 1], ts[k], ts[k + 1], tempo)
  }

  /** `rest` separates the notes `prev` and `next`: it starts where `prev` ends,
      the gap from there to `next` is at least a quarter beat, and its code is
      the greedy code of that gap with the rest marker. */
  ghost predicate RestBetween(prev: Timing, rest: Timing, next: Timing, tempo: real)
    requires tempo != 0.0
  {
    var beat := BeatSeconds(tempo);
    && !prev.rest && !next.rest
    && rest.startTime == EndTime(prev, beat)
    && next.startTime - EndTime(prev, beat) >= 0.25 * beat
    && rest.duration == QuantizeDuration(next.startTime - EndTime(prev, beat), tempo) + "r"
  }

  /** Two adjacent notes at `k` and `k + 1` leave less than a quarter beat of silence. */
  ghost predicate GapShortAt(ts: seq<Timing>, tempo: real, k: int)
    requires tempo != 0.0 && 0 <= k < |ts| - 1
  {
    !ts[k].rest && !ts[k + 1].rest ==> Close(ts[k], ts[k + 1], tempo)
  }

  /** `next` starts less than a quarter beat after `prev` ends. */
  ghost predicate Close(prev: Timing, next: Timing, tempo: real)
    requires tempo != 0.0
  {
    next.startTime - EndTime(prev, BeatSeconds(tempo)) < 0.25 * BeatSeconds(tempo)
  }

  /** The timing each event's note must have. */
  function Expected(events: seq<PitchEvent>, codes: seq<string>, k: nat): (ts: seq<Timing>)
    requires k <= |events| && |codes| == |events|
    ensures |ts| == k
  {
    seq(k, i requires 0 <= i < k => Timing(false, events[i].startTime, codes[i], Some(events[i].frequency)))
  }

  /** A rest is a silent `b/4`; a pitched note keeps its frequency and, when
      any note is allowed, names an allowed MIDI number. */
  ghost predicate WellFormedNote(n: MusicalNote, allowedMidi: seq<int>)
  {
    if IsRest(n) then n.pitch == "b" && n.octave == 4 && n.originalFrequency.None?
    else n.originalFrequency.Some? && (|allowedMidi| > 0 ==> InAllowed(n, allowedMidi))
  }

  /** A note as pass 2 makes it: a silent `b/4` rest, or a note carrying its
      frequency, named after the allowed number nearest to it and labelled
      with that name. */
  ghost predicate SnappedNote(n: MusicalNote, allowedMidi: seq<int>, hzToMidi: real -> int)
  {
    if IsRest(n) then n.pitch == "b" && n.octave == 4 && n.originalFrequency.None?
    else
      && n.originalFrequency.Some?
      && (n.pitch, n.octave) == MidiToNoteName(SnapMidi(allowedMidi, hzToMidi, n.originalFrequency.value))
      && n.quantizedNote == Some(NoteLabel(n.pitch, n.octave))
  }

  ghost predicate AllSnapped(notes: seq<MusicalNote>, allowedMidi: seq<int>, hzToMidi: real -> int)
  {
    forall i :: 0 <= i < |notes| ==> SnappedNote(notes[i], allowedMidi, hzToMidi)
  }

  /** A snapped note is well formed. */
  lemma SnappedWellFormed(n: MusicalNote, allowedMidi: seq<int>, hzToMidi: real -> int)
    requires SnappedNote(n, allowedMidi, hzToMidi)
    ensures WellFormedNote(n, allowedMidi)
  {
    if !IsRest(n) && |allowedMidi| > 0 {
      MidiNameRoundTrip(SnapMidi(allowedMidi, hzToMidi, n.originalFrequency.value));
    }
  }

  lemma SnapNoteSnapped(allowedMidi: seq<int>, hzToMidi: real -> int, event: PitchEvent, code: string)
    ensures SnappedNote(SnapNote(allowedMidi, hzToMidi, event, code), allowedMidi, hzToMidi)
    ensures TimingOf(SnapNote(allowedMidi, hzToMidi, event, code)) == Timing(false, event.startTime, code, Some(event.frequency))
  {
  }

  /** The note made for an event spells the allowed MIDI number nearest the
      event's own number (the first such number on a tie), or that number
      itself when nothing is allowed; it is labelled with its spelling and
      keeps the event's start and frequency. */
  lemma SnapNoteNearest(allowedMidi: seq<int>, hzToMidi: real -> int, event: PitchEvent, code: string)
    ensures var n := SnapNote(allowedMidi, hzToMidi, event, code);
      && NoteNameToMidi(n.pitch, n.octave).Success?
      && n.quantizedNote == Some(NoteLabel(n.pitch, n.octave))
      && TimingOf(n) == Timing(false, event.startTime, code, Some(event.frequency))
    ensures var n := SnapNote(allowedMidi, hzToMidi, event, code);
      var f := FrequencyToMidi(hzToMidi, event.frequency);
      var m := NoteNameToMidi(n.pitch, n.octave).value;
      && (|allowedMidi| == 0 ==> m == f)
      && (forall a :: a in allowedMidi ==> Abs(f - m) <= Abs(f - a))
      && (|allowedMidi| > 0 ==>
            exists i :: 0 <= i < |allowedMidi| && allowedMidi[i] == m &&
              forall j :: 0 <= j < i ==> Abs(f - m) < Abs(f - allowedMidi[j]))
  {
    MidiNameRoundTrip(SnapMidi(allowedMidi, hzToMidi, event.frequency));
  }

  lemma RestBeforeSnapped(tempo: real, acc: seq<MusicalNote>, event: PitchEvent, allowedMidi: seq<int>, hzToMidi: real -> int)
    requires tempo != 0.0
    ensures AllSnapped(RestBefore(tempo, acc, event), allowedMidi, hzToMidi)
    ensures forall i :: 0 <= i < |RestBefore(tempo, acc, event)| ==> IsRest(RestBefore(tempo, acc, event)[i])
  {
  }

  lemma AppendSnapped(acc: seq<MusicalNote>, rest: seq<MusicalNote>, note: MusicalNote, allowedMidi: seq<int>, hzToMidi: real -> int)
    requires AllSnapped(acc, allowedMidi, hzToMidi) && AllSnapped(rest, allowedMidi, hzToMidi)
    requires SnappedNote(note, allowedMidi, hzToMidi)
    ensures AllSnapped(acc + rest + [note], allowedMidi, hzToMidi)
  {
    var notes := acc + rest + [note];
    forall i | 0 <= i < |notes|
      ensures SnappedNote(notes[i], allowedMidi, hzToMidi)
    {
      if i < |acc| {
        assert notes[i] == acc[i];
      } else if i < |acc| + |rest| {
        assert notes[i] == rest[i - |acc|];
      } else {
        assert notes[i] == note;
      }
    }
  }

  /** One iteration keeps every note snapped. */
  lemma AddEventSnapped(q: Quantizer, hzToMidi: real -> int, acc: seq<MusicalNote>, event: PitchEvent, code: string)
    requires q.tempo != 0.0 && AllSnapped(acc, q.allowedMidi, hzToMidi)
    ensures AllSnapped(AddEvent(q, hzToMidi, acc, event, code), q.allowedMidi, hzToMidi)
  {
    SnapNoteSnapped(q.allowedMidi, hzToMidi, event, code);
    RestBeforeSnapped(q.tempo, acc, event, q.allowedMidi, hzToMidi);
    AppendSnapped(acc, RestBefore(q.tempo, acc, event), SnapNote(q.allowedMidi, hzToMidi, event, code), q.allowedMidi, hzToMidi);
  }

  /** The pitched notes gain exactly the new note when a rest and a note are appended. */
  lemma PitchedStep(acc: seq<MusicalNote>, rest: seq<MusicalNote>, note: MusicalNote)
    requires forall i :: 0 <= i < |rest| ==> IsRest(rest[i])
    requires !IsRest(note)
    ensures PitchedTimings(Timings(acc + rest + [note])) == PitchedTimings(Timings(acc)) + [TimingOf(note)]
  {
    TimingsAppend(acc + rest, [note]);
    TimingsAppend(acc, rest);
    assert Timings([note]) == [TimingOf(note)];
    PitchedAfterRests(Timings(acc), Timings(rest), TimingOf(note));
  }

  /** One iteration adds exactly the event's note to the pitched timings. */
  lemma AddEventPitched(q: Quantizer, hzToMidi: real -> int, acc: seq<MusicalNote>, event: PitchEvent, code: string)
    requires q.tempo != 0.0
    ensures PitchedTimings(Timings(AddEvent(q, hzToMidi, acc, event, code))) ==
      PitchedTimings(Timings(acc)) + [Timing(false, event.startTime, code, Some(event.frequency))]
  {
    SnapNoteSnapped(q.allowedMidi, hzToMidi, event, code);
    RestBeforeSnapped(q.tempo, acc, event, q.allowedMidi, hzToMidi);
    PitchedStep(acc, RestBefore(q.tempo, acc, event), SnapNote(q.allowedMidi, hzToMidi, event, code));
  }

  lemma ExpectedStep(events: seq<PitchEvent>, codes: seq<string>, k: nat)
    requires 0 < k <= |events| && |codes| == |events|
    ensures Expected(events, codes, k) ==
      Expected(events, codes, k - 1) + [Timing(false, events[k - 1].startTime, codes[k - 1], Some(events[k - 1].frequency))]
  {
  }

  /** One iteration keeps rests well placed. */
  lemma AddEventRests(q: Quantizer, hzToMidi: real -> int, acc: seq<MusicalNote>, event: PitchEvent, code: string)
    requires q.tempo != 0.0
    requires RestsWellPlaced(Timings(acc), q.tempo)
    requires |acc| > 0 ==> !IsRest(acc[|acc| - 1])
    ensures RestsWellPlaced(Timings(AddEvent(q, hzToMidi, acc, event, code)), q.tempo)
  {
    RestsStayWellPlaced(q, event, acc, RestBefore(q.tempo, acc, event), SnapNote(q.allowedMidi, hzToMidi, event, code));
  }

  /** Appending the optional rest and the next note keeps rests well placed. */
  lemma RestsStayWellPlaced(q: Quantizer, event: PitchEvent, acc: seq<MusicalNote>, rest: seq<MusicalNote>, note: MusicalNote)
    requires q.tempo != 0.0
    requires RestsWellPlaced(Timings(acc), q.tempo)
    requires |acc| > 0 ==> !IsRest(acc[|acc| - 1])
    requires rest == RestBefore(q.tempo, acc, event)
    requires !IsRest(note) && note.startTime == event.startTime
    ensures RestsWellPlaced(Timings(acc + rest + [note]), q.tempo)
  {
    AppendRestsPlaced(q, event, acc, rest, note);
    AppendGapsShort(q, event, acc, rest, note);
  }

  lemma AppendRestsPlaced(q: Quantizer, event: PitchEvent, acc: seq<MusicalNote>, rest: seq<MusicalNote>, note: MusicalNote)
    requires q.tempo != 0.0
    requires RestsWellPlaced(Timings(acc), q.tempo)
    requires |acc| > 0 ==> !IsRest(acc[|acc| - 1])
    requires rest == RestBefore(q.tempo, acc, event)
    requires !IsRest(note) && note.startTime == event.startTime
    ensures forall k :: 0 <= k < |acc + rest + [note]| ==> RestPlacedAt(Timings(acc + rest + [note]), q.tempo, k)
  {
    var ts := Timings(acc + rest + [note]);
    var prior := Timings(acc);
    var n := |acc|;
    forall k | 0 <= k < |ts|
      ensures RestPlacedAt(ts, q.tempo, k)
    {
      if k < n {
        assert ts[k] == prior[k];
        assert RestPlacedAt(prior, q.tempo, k);
        if k > 0 {
          assert ts[k - 1] == prior[k - 1];
        }
        if k + 1 < n {
          assert ts[k + 1] == prior[k + 1];
        }
      } else if k == n && |rest| == 1 {
        NewRestPlaced(q, event, acc, note);
      } else {
        assert ts[k] == TimingOf(note);
      }
    }
  }

  lemma AppendGapsShort(q: Quantizer, event: PitchEvent, acc: seq<MusicalNote>, rest: seq<MusicalNote>, note: MusicalNote)
    requires q.tempo != 0.0
    requires RestsWellPlaced(Timings(acc), q.tempo)
    requires rest == RestBefore(q.tempo, acc, event)
    requires !IsRest(note) && note.startTime == event.startTime
    ensures forall k :: 0 <= k < |acc + rest + [note]| - 1 ==> GapShortAt(Timings(acc + rest + [note]), q.tempo, k)
  {
    var ts := Timings(acc + rest + [note]);
    var prior := Timings(acc);
    var n := |acc|;
    forall k | 0 <= k < |ts| - 1
      ensures GapShortAt(ts, q.tempo, k)
    {
      if k + 1 < n {
        assert ts[k] == prior[k] && ts[k + 1] == prior[k + 1];
        assert GapShortAt(prior, q.tempo, k);
      } else if k + 1 == n && |rest| == 0 {
        NewNoteClose(q, event, acc, note);
      } else if k + 1 == n {
        assert ts[k + 1] == TimingOf(rest[0]);
      } else {
        assert k == n && |rest| == 1;
        assert ts[k] == TimingOf(rest[0]);
      }
    }
  }

  /** A new rest starts where the last note ends and fills the gap to the next. */
  lemma NewRestPlaced(q: Quantizer, event: PitchEvent, acc: seq<MusicalNote>, note: MusicalNote)
    requires q.tempo != 0.0
    requires |acc| > 0 && !IsRest(acc[|acc| - 1])
    requires |RestBefore(q.tempo, acc, event)| == 1
    requires !IsRest(note) && note.startTime == event.startTime
    ensures RestPlacedAt(Timings(acc + RestBefore(q.tempo, acc, event) + [note]), q.tempo, |acc|)
  {
    var rest := RestBefore(q.tempo, acc, event);
    var ts := Timings(acc + rest + [note]);
    var n := |acc|;
    RestBeforeBetween(q.tempo, acc, event, note);
    assert ts[n - 1] == TimingOf(acc[n - 1]);
    assert ts[n] == TimingOf(rest[0]);
    assert ts[n + 1] == TimingOf(note);
  }

  /** The rest `RestBefore` makes separates the last note and the new one. */
  lemma RestBeforeBetween(tempo: real, acc: seq<MusicalNote>, event: PitchEvent, note: MusicalNote)
    requires tempo != 0.0
    requires |acc| > 0 && !IsRest(acc[|acc| - 1])
    requires |RestBefore(tempo, acc, event)| == 1
    requires !IsRest(note) && note.startTime == event.startTime
    ensures RestBetween(TimingOf(acc[|acc| - 1]), TimingOf(RestBefore(tempo, acc, event)[0]), TimingOf(note), tempo)
  {
  }

  /** Without a new rest, the new note follows the last one closely. */
  lemma NewNoteClose(q: Quantizer, event: PitchEvent, acc: seq<MusicalNote>, note: MusicalNote)
    requires q.tempo != 0.0
    requires |acc| > 0
    requires |RestBefore(q.tempo, acc, event)| == 0
    requires note.startTime == event.startTime
    ensures GapShortAt(Timings(acc + RestBefore(q.tempo, acc, event) + [note]), q.tempo, |acc| - 1)
  {
    var ts := Timings(acc + RestBefore(q.tempo, acc, event) + [note]);
    var n := |acc|;
    assert Close(TimingOf(acc[n - 1]), TimingOf(note), q.tempo);
    assert ts[n - 1] == TimingOf(acc[n - 1]);
    assert ts[n] == TimingOf(note);
  }

  // ---------------------------------------------------------------------------
  // Melodic smoothing
  // ---------------------------------------------------------------------------

  /** Every pitched note after the first carries a frequency (the source calls
      `frequency_to_midi` on it, which fails on `None`). */
  predicate PitchedHaveFrequency(notes: seq<MusicalNote>)
  {
    forall k :: 1 <= k < |notes| && !IsRest(notes[k]) ==> notes[k].originalFrequency.Some?
  }

  /** `last_pitched_midi` when note `k` is reached: taken from the first note
      only when it is pitched with a non-zero frequency, afterwards from every
      pitched note; rests leave it alone. */
  function LastMidi(notes: seq<MusicalNote>, hzToMidi: real -> int, k: nat): Option<int>
    requires k <= |notes| && PitchedHaveFrequency(notes)
  {
    if k == 0 then None
    else if k == 1 then
      if !IsRest(notes[0]) && notes[0].originalFrequency.Some? && notes[0].originalFrequency.value != 0.0
      then Some(FrequencyToMidi(hzToMidi, notes[0].originalFrequency.value))
      else None
    else if IsRest(notes[k - 1]) then LastMidi(notes, hzToMidi, k - 1)
    else Some(FrequencyToMidi(hzToMidi, notes[k - 1].originalFrequency.value))
  }

  /** The allowed numbers whose sharp name is `name`, in order. */
  function SameName(allowedMidi: seq<int>, name: string): (r: seq<int>)
    ensures forall m :: m in r <==> m in allowedMidi && MidiToNoteName(m).0 == name
    ensures StrictlyIncreasing(allowedMidi) ==> StrictlyIncreasing(r)
  {
    if |allowedMidi| == 0 then []
    else
      var n := |allowedMidi|;
      var init, last := allowedMidi[..n - 1], allowedMidi[n - 1];
      assert allowedMidi == init + [last];
      var before := SameName(init, name);
      assert StrictlyIncreasing(allowedMidi) ==> StrictlyIncreasing(before + [last]) by {
        if StrictlyIncreasing(allowedMidi) {
          assert StrictlyIncreasing(init);
          var grown := before + [last];
          forall i, j | 0 <= i < j < |grown|
            ensures grown[i] < grown[j]
          {
            if j == |before| {
              assert grown[i] in before;
              var k :| 0 <= k < |init| && init[k] == grown[i];
            } else {
              assert grown[i] == before[i] && grown[j] == before[j];
            }
          }
        }
      }
      before + (if MidiToNoteName(last).0 == name then [last] else [])
  }

  /** One more number adds itself when its name matches, and nothing otherwise;
      so a single number is a candidate exactly when its name matches. */
  lemma SameNameSnoc(s: seq<int>, m: int, name: string)
    ensures SameName(s + [m], name) == SameName(s, name) + (if MidiToNoteName(m).0 == name then [m] else [])
    ensures SameName([m], name) == if MidiToNoteName(m).0 == name then [m] else []
  {
    assert (s + [m])[..|s|] == s;
    assert [m][..0] == [];
  }

  /** Choosing the matching numbers piece by piece and joining the results is
      choosing them from the whole list: the order of `allowedMidi` is kept. */
  lemma {:induction false} SameNameAppend(a: seq<int>, b: seq<int>, name: string)
    ensures SameName(a + b, name) == SameName(a, name) + SameName(b, name)
    decreases |b|
  {
    if |b| > 0 {
      var init, m := b[..|b| - 1], b[|b| - 1];
      assert b == init + [m];
      assert a + b == (a + init) + [m];
      var x := if MidiToNoteName(m).0 == name then [m] else [];
      calc {
        SameName(a + b, name);
        { SameNameSnoc(a + init, m, name); }
        SameName(a + init, name) + x;
        { SameNameAppend(a, init, name); }
        (SameName(a, name) + SameName(init, name)) + x;
        SameName(a, name) + (SameName(init, name) + x);
        { SameNameSnoc(init, m, name); }
        SameName(a, name) + SameName(b, name);
      }
    } else {
      assert a + b == a;
    }
  }

  /** `note` spelled after MIDI number `m`, its duration, start and frequency kept. */
  function MovedTo(note: MusicalNote, m: int): MusicalNote
  {
    var named := MidiToNoteName(m);
    MusicalNote(named.0, named.1, note.duration, note.startTime, note.originalFrequency, Some(NoteLabel(named.0, named.1)))
  }

  /** The note moved to the allowed number of the same name closest to `last`,
      or left alone when its name has no allowed number. */
  function Retarget(note: MusicalNote, allowedMidi: seq<int>, last: int): MusicalNote
  {
    var possible := SameName(allowedMidi, note.pitch);
    if |possible| == 0 then note else MovedTo(note, FindNearestAllowedNote(last, possible))
  }

  /** Note `k` of the smoothed list. */
  function SmoothNote(notes: seq<MusicalNote>, allowedMidi: seq<int>, hzToMidi: real -> int, maxJump: int, k: nat): MusicalNote
    requires k < |notes| && PitchedHaveFrequency(notes)
  {
    var note := notes[k];
    if k == 0 || IsRest(note) then note
    else
      var last := LastMidi(notes, hzToMidi, k);
      var curr := FrequencyToMidi(hzToMidi, note.originalFrequency.value);
      if last.Some? && Abs(curr - last.value) > maxJump then Retarget(note, allowedMidi, last.value) else note
  }

  /** `_apply_melodic_smoothing`. */
  function ApplyMelodicSmoothing(notes: seq<MusicalNote>, allowedMidi: seq<int>, hzToMidi: real -> int, maxJump: int): (r: seq<MusicalNote>)
    requires PitchedHaveFrequency(notes)
    ensures |r| == |notes|
  {
    if |notes| <= 1 then notes
    else seq(|notes|, k requires 0 <= k < |notes| => SmoothNote(notes, allowedMidi, hzToMidi, maxJump, k))
  }

  /** The MIDI number the source reads from a note's own frequency. */
  function NoteMidi(n: MusicalNote, hzToMidi: real -> int): int
    requires n.originalFrequency.Some?
  {
    FrequencyToMidi(hzToMidi, n.originalFrequency.value)
  }

  /** Note `j` is the last pitched note before note `k`, has a frequency, and
      lies more than `maxJump` semitones from note `k`. */
  ghost predicate JumpFrom(notes: seq<MusicalNote>, hzToMidi: real -> int, maxJump: int, j: int, k: int)
    requires 0 <= k < |notes| && notes[k].originalFrequency.Some?
  {
    && 0 <= j < k
    && !IsRest(notes[j]) && notes[j].originalFrequency.Some?
    && (forall i :: j < i < k ==> IsRest(notes[i]))
    && Abs(NoteMidi(notes[k], hzToMidi) - NoteMidi(notes[j], hzToMidi)) > maxJump
  }

  /** `last_pitched_midi` is the MIDI number of the last pitched note so far. */
  lemma {:induction false} LastMidiSource(notes: seq<MusicalNote>, hzToMidi: real -> int, k: nat)
    requires k <= |notes| && PitchedHaveFrequency(notes)
    requires LastMidi(notes, hzToMidi, k).Some?
    ensures exists j :: (0 <= j < k && !IsRest(notes[j]) && notes[j].originalFrequency.Some? &&
      (forall i :: j < i < k ==> IsRest(notes[i])) &&
      LastMidi(notes, hzToMidi, k).value == NoteMidi(notes[j], hzToMidi))
    decreases k
  {
    if k == 1 {
      assert !IsRest(notes[0]) && notes[0].originalFrequency.Some?;
    } else if IsRest(notes[k - 1]) {
      LastMidiSource(notes, hzToMidi, k - 1);
    } else {
      assert !IsRest(notes[k - 1]) && notes[k - 1].originalFrequency.Some?;
    }
  }

  /** What smoothing leaves and what it may change. */
  lemma SmoothingPreserves(notes: seq<MusicalNote>, allowedMidi: seq<int>, hzToMidi: real -> int, maxJump: int)
    requires PitchedHaveFrequency(notes)
    ensures var r := ApplyMelodicSmoothing(notes, allowedMidi, hzToMidi, maxJump);
      && Timings(r) == Timings(notes)
      && (forall k :: 0 <= k < |notes| ==> r[k].pitch == notes[k].pitch)
      && (forall k :: 0 <= k < |notes| && IsRest(notes[k]) ==> r[k] == notes[k])
      && (forall k :: 0 <= k < |notes| && r[k] != notes[k] ==>
            && notes[k].originalFrequency.Some?
            && (exists j :: JumpFrom(notes, hzToMidi, maxJump, j, k))
            && r[k] == notes[k].(octave := r[k].octave, quantizedNote := Some(NoteLabel(notes[k].pitch, r[k].octave)))
            && InAllowed(r[k], allowedMidi))
      && (forall k :: 0 <= k < |notes| && InAllowed(notes[k], allowedMidi) ==> InAllowed(r[k], allowedMidi))
  {
    var r := ApplyMelodicSmoothing(notes, allowedMidi, hzToMidi, maxJump);
    forall k | 0 <= k < |notes|
      ensures TimingOf(r[k]) == TimingOf(notes[k])
      ensures r[k].pitch == notes[k].pitch
      ensures IsRest(notes[k]) ==> r[k] == notes[k]
      ensures r[k] != notes[k] ==>
            && notes[k].originalFrequency.Some?
            && (exists j :: JumpFrom(notes, hzToMidi, maxJump, j, k))
            && r[k] == notes[k].(octave := r[k].octave, quantizedNote := Some(NoteLabel(notes[k].pitch, r[k].octave)))
            && InAllowed(r[k], allowedMidi)
    {
      if r[k] != notes[k] {
        assert |notes| > 1 && k > 0 && !IsRest(notes[k]);
        var last := LastMidi(notes, hzToMidi, k);
        assert last.Some? && Abs(NoteMidi(notes[k], hzToMidi) - last.value) > maxJump;
        LastMidiSource(notes, hzToMidi, k);
        var j :| 0 <= j < k && !IsRest(notes[j]) && notes[j].originalFrequency.Some? &&
          (forall i :: j < i < k ==> IsRest(notes[i])) && last.value == NoteMidi(notes[j], hzToMidi);
        assert JumpFrom(notes, hzToMidi, maxJump, j, k);
        assert |SameName(allowedMidi, notes[k].pitch)| > 0;
        RetargetFacts(notes[k], allowedMidi, last.value);
      }
    }
    assert Timings(r) == Timings(notes);
  }

  /** A note whose name has allowed numbers is re-spelled after the one
      nearest `last` (the first on a tie): it keeps its name, timing and rest
      flag, changes only its octave and label, and names an allowed number. */
  lemma RetargetFacts(note: MusicalNote, allowedMidi: seq<int>, last: int)
    requires !IsRest(note)
    requires |SameName(allowedMidi, note.pitch)| > 0
    ensures var r := Retarget(note, allowedMidi, last);
      && TimingOf(r) == TimingOf(note)
      && r == note.(octave := r.octave, quantizedNote := Some(NoteLabel(note.pitch, r.octave)))
      && InAllowed(r, allowedMidi)
    ensures var r := Retarget(note, allowedMidi, last);
      var possible := SameName(allowedMidi, note.pitch);
      var c := NoteNameToMidi(r.pitch, r.octave).value;
      && c in possible
      && (forall m :: m in possible ==> Abs(last - c) <= Abs(last - m))
      && (exists i :: 0 <= i < |possible| && possible[i] == c &&
            forall j :: 0 <= j < i ==> Abs(last - c) < Abs(last - possible[j]))
  {
    var possible := SameName(allowedMidi, note.pitch);
    var closest := FindNearestAllowedNote(last, possible);
    assert closest in possible;
    MidiNameRoundTrip(closest);
    var named := MidiToNoteName(closest);
    NoteLabelNotRest(named.0, named.1);
  }

  /** Note `k` is pitched, follows a pitched note with a remembered number,
      and lies more than `maxJump` semitones from it. */
  ghost predicate Jumps(notes: seq<MusicalNote>, hzToMidi: real -> int, maxJump: int, k: int)
    requires 0 <= k < |notes| && PitchedHaveFrequency(notes)
  {
    && 0 < k && !IsRest(notes[k])
    && LastMidi(notes, hzToMidi, k).Some?
    && Abs(NoteMidi(notes[k], hzToMidi) - LastMidi(notes, hzToMidi, k).value) > maxJump
  }

  /** Note `k` jumps and its name has allowed numbers to move to. */
  ghost predicate Moves(notes: seq<MusicalNote>, allowedMidi: seq<int>, hzToMidi: real -> int, maxJump: int, k: int)
    requires 0 <= k < |notes| && PitchedHaveFrequency(notes)
  {
    Jumps(notes, hzToMidi, maxJump, k) && |SameName(allowedMidi, notes[k].pitch)| > 0
  }

  /** Exactly the notes that jump, and whose name has allowed numbers, are
      re-spelled: after the allowed number of their name nearest the
      remembered one. Every other note is returned as it was. */
  lemma SmoothingTarget(notes: seq<MusicalNote>, allowedMidi: seq<int>, hzToMidi: real -> int, maxJump: int)
    requires PitchedHaveFrequency(notes)
    ensures var r := ApplyMelodicSmoothing(notes, allowedMidi, hzToMidi, maxJump);
      forall k :: 0 <= k < |notes| && Moves(notes, allowedMidi, hzToMidi, maxJump, k) ==>
        r[k] == MovedTo(notes[k], FindNearestAllowedNote(LastMidi(notes, hzToMidi, k).value, SameName(allowedMidi, notes[k].pitch)))
    ensures var r := ApplyMelodicSmoothing(notes, allowedMidi, hzToMidi, maxJump);
      forall k :: 0 <= k < |notes| && !Moves(notes, allowedMidi, hzToMidi, maxJump, k) ==> r[k] == notes[k]
  {
    var r := ApplyMelodicSmoothing(notes, allowedMidi, hzToMidi, maxJump);
    forall k | 0 <= k < |notes|
      ensures Moves(notes, allowedMidi, hzToMidi, maxJump, k) ==>
        r[k] == MovedTo(notes[k], FindNearestAllowedNote(LastMidi(notes, hzToMidi, k).value, SameName(allowedMidi, notes[k].pitch)))
      ensures !Moves(notes, allowedMidi, hzToMidi, maxJump, k) ==> r[k] == notes[k]
    {
      if |notes| > 1 {
        assert r[k] == SmoothNote(notes, allowedMidi, hzToMidi, maxJump, k);
      }
    }
  }

  // ---------------------------------------------------------------------------
  // quantize_pitches
  // ---------------------------------------------------------------------------

  /** Pass 1: the Viterbi codes for the sorted events' durations in beats. */
  function ViterbiCodes(q: Quantizer, sorted: seq<PitchEvent>): (codes: seq<string>)
    requires q.tempo != 0.0
    ensures |codes| == |sorted|
  {
    var beat := BeatSeconds(q.tempo);
    QuantizeSequenceViterbi(seq(|sorted|, i requires 0 <= i < |sorted| => sorted[i].duration / beat), q.beatsPerMeasure)
  }

  /** What pass 2 keeps true after the first `i` events: notes only come
      from the loop, the last one is pitched, every note is snapped, the pitched
      notes are the events' in order, and rests are well placed. */
  ghost predicate Pass2State(q: Quantizer, hzToMidi: real -> int, events: seq<PitchEvent>, codes: seq<string>, i: nat, notes: seq<MusicalNote>)
  {
    && q.tempo != 0.0 && |codes| == |events| && i <= |events|
    && (i == 0 ==> notes == [])
    && (i > 0 ==> |notes| > 0 && !IsRest(notes[|notes| - 1]))
    && AllSnapped(notes, q.allowedMidi, hzToMidi)
    && PitchedTimings(Timings(notes)) == Expected(events, codes, i)
    && RestsWellPlaced(Timings(notes), q.tempo)
  }

  /** Before the loop nothing is built. */
  lemma Pass2Start(q: Quantizer, hzToMidi: real -> int, events: seq<PitchEvent>, codes: seq<string>)
    requires q.tempo != 0.0 && |codes| == |events|
    ensures Pass2State(q, hzToMidi, events, codes, 0, [])
  {
    assert Timings([]) == [];
  }

  /** One iteration of pass 2 keeps `Pass2State`. */
  lemma AddEventKeeps(q: Quantizer, hzToMidi: real -> int, events: seq<PitchEvent>, codes: seq<string>, i: nat, notes: seq<MusicalNote>)
    requires i < |events| && Pass2State(q, hzToMidi, events, codes, i, notes)
    ensures Pass2State(q, hzToMidi, events, codes, i + 1, AddEvent(q, hzToMidi, notes, events[i], codes[i]))
  {
    var event, code := events[i], codes[i];
    AddEventSnapped(q, hzToMidi, notes, event, code);
    AddEventExpected(q, hzToMidi, events, codes, i, notes);
    AddEventRests(q, hzToMidi, notes, event, code);
    AddEventEndsPitched(q, hzToMidi, notes, event, code);
  }

  /** One iteration extends the pitched timings by the next expected one. */
  lemma AddEventExpected(q: Quantizer, hzToMidi: real -> int, events: seq<PitchEvent>, codes: seq<string>, i: nat, notes: seq<MusicalNote>)
    requires q.tempo != 0.0 && |codes| == |events| && i < |events|
    requires PitchedTimings(Timings(notes)) == Expected(events, codes, i)
    ensures PitchedTimings(Timings(AddEvent(q, hzToMidi, notes, events[i], codes[i]))) == Expected(events, codes, i + 1)
  {
    AddEventPitched(q, hzToMidi, notes, events[i], codes[i]);
    ExpectedStep(events, codes, i + 1);
  }

  lemma AddEventEndsPitched(q: Quantizer, hzToMidi: real -> int, acc: seq<MusicalNote>, event: PitchEvent, code: string)
    requires q.tempo != 0.0
    ensures var notes := AddEvent(q, hzToMidi, acc, event, code);
      |notes| > 0 && !IsRest(notes[|notes| - 1])
  {
  }

  /** Pass 2: a note per event, preceded by a rest when the event starts at
      least a quarter beat after the previous note ends. */
  method BuildNotes(q: Quantizer, hzToMidi: real -> int, events: seq<PitchEvent>, codes: seq<string>) returns (notes: seq<MusicalNote>)
    requires q.tempo != 0.0 && |codes| == |events|
    ensures Pass2State(q, hzToMidi, events, codes, |events|, notes)
  {
    notes := [];
    var i := 0;
    Pass2Start(q, hzToMidi, events, codes);
    while i < |events|
      invariant Pass2State(q, hzToMidi, events, codes, i, notes)
    {
      AddEventKeeps(q, hzToMidi, events, codes, i, notes);
      notes := AddEvent(q, hzToMidi, notes, events[i], codes[i]);
      i := i + 1;
    }
  }

  /** Note `k` of the output: a pitched note carries its frequency and its
      label, and is spelled after the allowed number nearest its frequency —
      or, when it jumps and that number's name has allowed numbers, after the
      one of that name nearest the remembered number. */
  ghost predicate Placed(r: seq<MusicalNote>, allowedMidi: seq<int>, hzToMidi: real -> int, k: int)
    requires 0 <= k < |r| && PitchedHaveFrequency(r)
  {
    !IsRest(r[k]) ==>
      && r[k].originalFrequency.Some?
      && r[k].quantizedNote == Some(NoteLabel(r[k].pitch, r[k].octave))
      && var snapped := SnapMidi(allowedMidi, hzToMidi, r[k].originalFrequency.value);
         var possible := SameName(allowedMidi, MidiToNoteName(snapped).0);
         (r[k].pitch, r[k].octave) ==
           MidiToNoteName(
             if Jumps(r, hzToMidi, MaxJumpSemitones, k) && |possible| > 0
             then FindNearestAllowedNote(LastMidi(r, hzToMidi, k).value, possible)
             else snapped)
  }

  /** `last_pitched_midi` depends only on the notes' timings. */
  lemma {:induction false} LastMidiTimings(a: seq<MusicalNote>, b: seq<MusicalNote>, hzToMidi: real -> int, k: nat)
    requires Timings(a) == Timings(b) && k <= |a|
    requires PitchedHaveFrequency(a) && PitchedHaveFrequency(b)
    ensures LastMidi(a, hzToMidi, k) == LastMidi(b, hzToMidi, k)
    decreases k
  {
    if k > 0 {
      assert TimingOf(a[k - 1]) == TimingOf(b[k - 1]);
      if k > 1 {
        LastMidiTimings(a, b, hzToMidi, k - 1);
      }
    }
  }

  /** Smoothing snapped notes gives notes that are well formed and placed. */
  lemma SmoothedOutput(notes: seq<MusicalNote>, allowedMidi: seq<int>, hzToMidi: real -> int)
    requires AllSnapped(notes, allowedMidi, hzToMidi)
    ensures PitchedHaveFrequency(notes)
    ensures var r := ApplyMelodicSmoothing(notes, allowedMidi, hzToMidi, MaxJumpSemitones);
      && Timings(r) == Timings(notes)
      && PitchedHaveFrequency(r)
      && (forall k :: 0 <= k < |r| ==> WellFormedNote(r[k], allowedMidi))
      && (forall k :: 0 <= k < |r| ==> Placed(r, allowedMidi, hzToMidi, k))
  {
    assert PitchedHaveFrequency(notes) by {
      forall k | 1 <= k < |notes| && !IsRest(notes[k])
        ensures notes[k].originalFrequency.Some?
      {
        assert SnappedNote(notes[k], allowedMidi, hzToMidi);
      }
    }
    SmoothingPreserves(notes, allowedMidi, hzToMidi, MaxJumpSemitones);
    SmoothingTarget(notes, allowedMidi, hzToMidi, MaxJumpSemitones);
    var r := ApplyMelodicSmoothing(notes, allowedMidi, hzToMidi, MaxJumpSemitones);
    assert PitchedHaveFrequency(r) by {
      forall k | 1 <= k < |r| && !IsRest(r[k])
        ensures r[k].originalFrequency.Some?
      {
        assert TimingOf(r[k]) == TimingOf(notes[k]);
      }
    }
    forall k | 0 <= k < |r|
      ensures WellFormedNote(r[k], allowedMidi)
      ensures Placed(r, allowedMidi, hzToMidi, k)
    {
      assert SnappedNote(notes[k], allowedMidi, hzToMidi);
      SnappedWellFormed(notes[k], allowedMidi, hzToMidi);
      assert TimingOf(r[k]) == TimingOf(notes[k]);
      if !IsRest(r[k]) {
        LastMidiTimings(notes, r, hzToMidi, k);
        assert Jumps(r, hzToMidi, MaxJumpSemitones, k) == Jumps(notes, hzToMidi, MaxJumpSemitones, k);
        if Moves(notes, allowedMidi, hzToMidi, MaxJumpSemitones, k) {
          var named := MidiToNoteName(FindNearestAllowedNote(LastMidi(notes, hzToMidi, k).value, SameName(allowedMidi, notes[k].pitch)));
          assert r[k].quantizedNote == Some(NoteLabel(named.0, named.1));
        }
      }
    }
  }

  /** `quantize_pitches`: sort by start time, quantise the durations, build
      notes and rests, smooth octave jumps. Without the rests there is one note
      per event, in start order, with that event's start, frequency and Viterbi
      code; rests are placed as `RestsWellPlaced` says and sound nothing; every
      pitched note carries its label and is placed as `Placed` says. */
  method QuantizePitches(q: Quantizer, hzToMidi: real -> int, events: seq<PitchEvent>) returns (r: seq<MusicalNote>)
    requires |events| > 0 ==> q.tempo != 0.0
    ensures |events| == 0 ==> r == []
    ensures |events| > 0 ==>
      PitchedTimings(Timings(r)) == Expected(SortByStart(events), ViterbiCodes(q, SortByStart(events)), |events|)
    ensures |events| > 0 ==> RestsWellPlaced(Timings(r), q.tempo)
    ensures forall k :: 0 <= k < |r| ==> WellFormedNote(r[k], q.allowedMidi)
    ensures PitchedHaveFrequency(r)
    ensures forall k :: 0 <= k < |r| ==> Placed(r, q.allowedMidi, hzToMidi, k)
  {
    if |events| == 0 {
      return [];
    }
    var sorted := SortByStart(events);
    var codes := ViterbiCodes(q, sorted);
    var notes := BuildNotes(q, hzToMidi, sorted, codes);
    SmoothedOutput(notes, q.allowedMidi, hzToMidi);
    r := ApplyMelodicSmoothing(notes, q.allowedMidi, hzToMidi, MaxJumpSemitones);
  }
}
