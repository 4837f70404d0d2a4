/** `NotationGenerator` of `backend/app/services/notation_generator.py`: greedy
    grouping of quantised notes into measures, the clef and key choice, and the
    VexFlow rendering with its metadata. */
module NotationGenerator {
  import opened Outcomes
  import opened Decimal
  import opened MusicTheory
  import opened Notes
  import opened TimeSignature

  /** A generator fixed to one time signature. */
  datatype Generator = Generator(timeSignature: string, beatsPerMeasure: real)

  /** `NotationGenerator(time_signature)`: the signature is parsed up front, so a
      malformed one raises from the constructor. */
  function NewGenerator(timeSignature: string): (r: Result<Generator>)
    ensures r.Success? ==> r.value.timeSignature == timeSignature
  {
    match ParseTimeSignature(timeSignature)
    case Success(beats) => Success(Generator(timeSignature, beats))
    case Failure(e) => Failure(e)
  }

  /** A generator built from `"n/d"` measures `4n/d` quarter beats, and the
      zero denominator is the only integer pair it rejects. */
  lemma NewGeneratorBeats(n: int, d: int)
    ensures var text := IntToString(n) + "/" + IntToString(d);
            d != 0 ==> NewGenerator(text) == Success(Generator(text, 4.0 * n as real / d as real))
    ensures d == 0 ==> NewGenerator(IntToString(n) + "/" + IntToString(d)) == Failure(ZeroDenominator)
  {
    ParseTimeSignatureRoundTrip(n, d);
  }

  /** The default generator measures four quarter beats. */
  lemma DefaultGenerator()
    ensures NewGenerator("4/4") == Success(Generator("4/4", 4.0))
  {
    CommonSignatures();
  }

  // ---------------------------------------------------------------- measures

  /** The slack `1e-6` allowed on a measure's beat total. */
  const Tolerance: real := 0.000001

  /** Quarter beats of a run of notes, rests included. */
  function SumBeats(m: seq<MusicalNote>): real
  {
    if |m| == 0 then 0.0 else SumBeats(m[..|m| - 1]) + DurationBeats(m[|m| - 1].duration)
  }

  /** The notes of a list of measures, in order. */
  function Concat<T>(ms: seq<seq<T>>): seq<T>
  {
    if |ms| == 0 then [] else Concat(ms[..|ms| - 1]) + ms[|ms| - 1]
  }

  lemma ConcatSnoc<T>(ms: seq<seq<T>>, m: seq<T>)
    ensures Concat(ms + [m]) == Concat(ms) + m
  {
    assert (ms + [m])[..|ms|] == ms;
  }

  /** A measure within the bar length, or one holding at most a single note
      (which may be longer than the bar on its own). */
  predicate Fits(m: seq<MusicalNote>, bpm: real)
  {
    |m| <= 1 || SumBeats(m) <= bpm + Tolerance
  }

  /** Every measure was closed only because the next note would not fit in it. */
  predicate Greedy(ms: seq<seq<MusicalNote>>, bpm: real)
  {
    forall k :: 0 < k < |ms| && |ms[k]| > 0 ==>
      SumBeats(ms[k - 1]) + DurationBeats(ms[k][0].duration) > bpm + Tolerance
  }

  lemma InitLast<T>(s: seq<T>)
    requires |s| > 0
    ensures s[..|s| - 1] + [s[|s| - 1]] == s
  {
  }

  /** No measure is empty and each one fits. */
  predicate AllFit(ms: seq<seq<MusicalNote>>, bpm: real)
  {
    forall k :: 0 <= k < |ms| ==> |ms[k]| > 0 && Fits(ms[k], bpm)
  }

  /** The loop state of `_group_into_measures`: the closed measures, the open
      one and its beat total. */
  datatype Grouping = Grouping(closed: seq<seq<MusicalNote>>, current: seq<MusicalNote>, beats: real)

  /** The measures so far, the open one included when it holds a note. */
  function Measures(g: Grouping): seq<seq<MusicalNote>>
  {
    if |g.current| > 0 then g.closed + [g.current] else g.closed
  }

  /** One loop iteration: a note that would overflow the open measure closes it
      (when it is not empty) and starts the next one. */
  function Place(g: Grouping, note: MusicalNote, bpm: real): Grouping
  {
    var noteBeats := DurationBeats(note.duration);
    if g.beats + noteBeats > bpm + Tolerance then Grouping(Measures(g), [note], noteBeats)
    else Grouping(g.closed, g.current + [note], g.beats + noteBeats)
  }

  function Fold(notes: seq<MusicalNote>, bpm: real): Grouping
  {
    if |notes| == 0 then Grouping([], [], 0.0)
    else Place(Fold(notes[..|notes| - 1], bpm), notes[|notes| - 1], bpm)
  }

  /** What the loop keeps true of the notes seen so far. */
  ghost predicate Grouped(notes: seq<MusicalNote>, bpm: real, g: Grouping)
  {
    var ms := Measures(g);
    && Concat(ms) == notes
    && (|g.current| == 0 ==> |g.closed| == 0)
    && g.beats == SumBeats(g.current)
    && AllFit(ms, bpm)
    && Greedy(ms, bpm)
  }

  lemma {:induction false} FoldGrouped(notes: seq<MusicalNote>, bpm: real)
    ensures Grouped(notes, bpm, Fold(notes, bpm))
    decreases |notes|
  {
    if |notes| == 0 {
      assert Measures(Fold(notes, bpm)) == [];
    } else {
      var init := notes[..|notes| - 1];
      FoldGrouped(init, bpm);
      var g, note := Fold(init, bpm), notes[|notes| - 1];
      InitLast(notes);
      if g.beats + DurationBeats(note.duration) > bpm + Tolerance {
        CloseKeeps(init, bpm, g, note);
      } else {
        AppendKeeps(init, bpm, g, note);
      }
    }
  }

  /** Closing the open measure keeps the loop invariant. */
  lemma CloseKeeps(notes: seq<MusicalNote>, bpm: real, g: Grouping, note: MusicalNote)
    requires Grouped(notes, bpm, g)
    requires g.beats + DurationBeats(note.duration) > bpm + Tolerance
    ensures Grouped(notes + [note], bpm, Place(g, note, bpm))
  {
    var ms := Measures(g);
    var g' := Place(g, note, bpm);
    assert g' == Grouping(ms, [note], DurationBeats(note.duration));
    assert Measures(g') == ms + [[note]];
    ConcatSnoc(ms, [note]);
    SingleSum(note);
    CloseFits(ms, bpm, note);
    CloseGreedy(bpm, g, note);
  }

  lemma SingleSum(note: MusicalNote)
    ensures SumBeats([note]) == DurationBeats(note.duration)
  {
    assert [note][..0] == [];
  }

  lemma CloseFits(ms: seq<seq<MusicalNote>>, bpm: real, note: MusicalNote)
    requires AllFit(ms, bpm)
    ensures AllFit(ms + [[note]], bpm)
  {
    assert forall k :: 0 <= k < |ms| ==> (ms + [[note]])[k] == ms[k];
  }

  lemma CloseGreedy(bpm: real, g: Grouping, note: MusicalNote)
    requires Greedy(Measures(g), bpm)
    requires |g.current| == 0 ==> |g.closed| == 0
    requires SumBeats(g.current) + DurationBeats(note.duration) > bpm + Tolerance
    ensures Greedy(Measures(g) + [[note]], bpm)
  {
    var ms := Measures(g);
    var ms' := ms + [[note]];
    forall k | 0 < k < |ms'| && |ms'[k]| > 0
      ensures SumBeats(ms'[k - 1]) + DurationBeats(ms'[k][0].duration) > bpm + Tolerance
    {
      if k < |ms| {
        assert ms'[k - 1] == ms[k - 1] && ms'[k] == ms[k];
      } else {
        assert ms'[k - 1] == g.current;
      }
    }
  }

  /** Extending the open measure keeps the loop invariant. */
  lemma AppendKeeps(notes: seq<MusicalNote>, bpm: real, g: Grouping, note: MusicalNote)
    requires Grouped(notes, bpm, g)
    requires g.beats + DurationBeats(note.duration) <= bpm + Tolerance
    ensures Grouped(notes + [note], bpm, Place(g, note, bpm))
  {
    var current := g.current + [note];
    var g' := Place(g, note, bpm);
    assert g' == Grouping(g.closed, current, g.beats + DurationBeats(note.duration));
    assert Measures(g') == g.closed + [current];
    AppendSums(g.current, note);
    AppendConcat(notes, g, note);
    AppendFits(bpm, g, note);
    AppendGreedy(bpm, g, note);
  }

  lemma AppendFits(bpm: real, g: Grouping, note: MusicalNote)
    requires AllFit(Measures(g), bpm)
    requires SumBeats(g.current + [note]) <= bpm + Tolerance
    ensures AllFit(g.closed + [g.current + [note]], bpm)
  {
    var ms, ms' := Measures(g), g.closed + [g.current + [note]];
    forall k | 0 <= k < |ms'| ensures |ms'[k]| > 0 && Fits(ms'[k], bpm) {
      if k < |g.closed| {
        assert ms'[k] == ms[k];
      }
    }
  }

  lemma AppendSums(current: seq<MusicalNote>, note: MusicalNote)
    ensures SumBeats(current + [note]) == SumBeats(current) + DurationBeats(note.duration)
  {
    assert (current + [note])[..|current|] == current;
  }

  lemma AppendConcat(notes: seq<MusicalNote>, g: Grouping, note: MusicalNote)
    requires Concat(Measures(g)) == notes
    requires |g.current| == 0 ==> |g.closed| == 0
    ensures Concat(g.closed + [g.current + [note]]) == notes + [note]
  {
    ConcatSnoc(g.closed, g.current + [note]);
    if |g.current| > 0 {
      ConcatSnoc(g.closed, g.current);
    } else {
      assert Concat(g.closed) == [];
    }
  }

  lemma AppendGreedy(bpm: real, g: Grouping, note: MusicalNote)
    requires Greedy(Measures(g), bpm)
    requires |g.current| == 0 ==> |g.closed| == 0
    ensures Greedy(g.closed + [g.current + [note]], bpm)
  {
    var ms, ms' := Measures(g), g.closed + [g.current + [note]];
    forall k | 0 < k < |ms'| && |ms'[k]| > 0
      ensures SumBeats(ms'[k - 1]) + DurationBeats(ms'[k][0].duration) > bpm + Tolerance
    {
      assert ms'[k - 1] == ms[k - 1];
      assert ms'[k][0] == ms[k][0];
    }
  }

  /** `_group_into_measures`: the notes in order, cut into measures greedily;
      the empty input gives one empty measure. */
  function GroupIntoMeasures(notes: seq<MusicalNote>, bpm: real): (r: seq<seq<MusicalNote>>)
    ensures Concat(r) == notes
    ensures |notes| == 0 ==> r == [[]]
    ensures |notes| > 0 ==> forall k :: 0 <= k < |r| ==> |r[k]| > 0
    ensures forall k :: 0 <= k < |r| ==> Fits(r[k], bpm)
    ensures Greedy(r, bpm)
  {
    var ms := Measures(Fold(notes, bpm));
    GroupedMeasures(notes, bpm, ms);
    if |ms| == 0 then
      var empty: seq<seq<MusicalNote>> := [[]];
      assert Concat(empty[..0]) == [];
      assert Fits([], bpm) && Greedy(empty, bpm);
      empty
    else ms
  }

  /** The loop's measures are empty exactly for no notes; otherwise they are
      the grouping itself. */
  lemma {:induction false} GroupedMeasures(notes: seq<MusicalNote>, bpm: real, ms: seq<seq<MusicalNote>>)
    requires ms == Measures(Fold(notes, bpm))
    ensures |ms| == 0 <==> |notes| == 0
    ensures |ms| > 0 ==> Concat(ms) == notes && AllFit(ms, bpm) && Greedy(ms, bpm)
  {
    FoldGrouped(notes, bpm);
    if |ms| == 0 {
      assert notes == Concat(ms) == [];
    }
  }

  // ---------------------------------------------------------------- clef and key

  /** Octaves of the notes that are not rests, summed. */
  function OctaveSum(notes: seq<MusicalNote>): int
  {
    if |notes| == 0 then 0
    else OctaveSum(notes[..|notes| - 1]) + (if IsRest(notes[|notes| - 1]) then 0 else notes[|notes| - 1].octave)
  }

  /** `_determine_clef`: bass when the mean octave of the pitched notes is at
      most 2, treble otherwise and when there is nothing pitched. */
  function DetermineClef(notes: seq<MusicalNote>): (clef: string)
    ensures clef == "bass" || clef == "treble"
  {
    var count := CountPitched(notes);
    if count == 0 then "treble"
    else if OctaveSum(notes) as real / count as real <= 2.0 then "bass"
    else "treble"
  }

  /** The clef in integer terms: bass exactly when some note is pitched and the
      pitched octaves sum to at most twice their number. */
  lemma ClefIsBassIff(notes: seq<MusicalNote>)
    ensures DetermineClef(notes) == "bass" <==> CountPitched(notes) > 0 && OctaveSum(notes) <= 2 * CountPitched(notes)
  {
    if CountPitched(notes) > 0 {
      MeanAtMostTwo(OctaveSum(notes), CountPitched(notes));
    }
  }

  lemma MeanAtMostTwo(s: int, c: int)
    requires c > 0
    ensures s as real / c as real <= 2.0 <==> s <= 2 * c
  {
    var mean := s as real / c as real;
    assert mean * c as real == s as real;
  }

  /** Total weight of the pitch-class histogram: the beats of the pitched notes. */
  function PitchedBeats(notes: seq<MusicalNote>): real
  {
    if |notes| == 0 then 0.0
    else PitchedBeats(notes[..|notes| - 1]) + (if IsRest(notes[|notes| - 1]) then 0.0 else DurationBeats(notes[|notes| - 1].duration))
  }

  lemma DurationBeatsPositive(code: string)
    ensures DurationBeats(code) > 0.0
  {
    DurationBeatsDefault(code);
    var k :| 0 <= k < |BeatTable| && DurationBeats(code) == BeatTable[k].1;
    TableBeatsPositive(k);
  }

  lemma TableBeatsPositive(k: nat)
    requires k < |BeatTable|
    ensures BeatTable[k].1 > 0.0
  {
  }

  /** The histogram is empty exactly when no note is pitched. */
  lemma {:induction false} PitchedBeatsZero(notes: seq<MusicalNote>)
    ensures PitchedBeats(notes) >= 0.0
    ensures PitchedBeats(notes) == 0.0 <==> CountPitched(notes) == 0
    decreases |notes|
  {
    if |notes| > 0 {
      PitchedBeatsZero(notes[..|notes| - 1]);
      DurationBeatsPositive(notes[|notes| - 1].duration);
    }
  }

  /** `_detect_key_signature`: "C" for no notes or an empty histogram; the
      Krumhansl-Schmuckler correlation otherwise, supplied as `correlate`. */
  function DetectKeySignature(notes: seq<MusicalNote>, correlate: seq<MusicalNote> -> string): (key: string)
  {
    if |notes| == 0 then "C"
    else if PitchedBeats(notes) == 0.0 then "C"
    else correlate(notes)
  }

  /** The key is "C" when nothing is pitched (all rests or no notes) and the
      correlation's answer otherwise. */
  lemma KeyDetection(notes: seq<MusicalNote>, correlate: seq<MusicalNote> -> string)
    ensures CountPitched(notes) == 0 ==> DetectKeySignature(notes, correlate) == "C"
    ensures CountPitched(notes) > 0 ==> DetectKeySignature(notes, correlate) == correlate(notes)
  {
    PitchedBeatsZero(notes);
  }

  // ---------------------------------------------------------------- rendering

  /** One VexFlow note: its keys and its duration code. */
  datatype VexNote = VexNote(keys: seq<string>, duration: string)

  /** `VexFlowMeasure`; the generator never sets a per-measure time signature. */
  datatype VexMeasure = VexMeasure(notes: seq<VexNote>, timeSignature: Option<string>)

  datatype VexFlowData = VexFlowData(measures: seq<VexMeasure>, clef: string, key: string)

  datatype MusicMetadata = MusicMetadata(
    tempo: int,
    timeSignature: string,
    keySignature: string,
    totalDuration: real,
    noteCount: nat)

  /** A rest is drawn as `b/4`, a note as `pitch/octave`; the duration code,
      rest suffix included, is passed through. */
  function RenderNote(n: MusicalNote): (v: VexNote)
    ensures |v.keys| == 1 && v.duration == n.duration
    ensures IsRest(n) ==> v.keys == ["b/4"]
  {
    VexNote(if IsRest(n) then ["b/4"] else [n.pitch + "/" + IntToString(n.octave)], n.duration)
  }

  /** A pitched note's key splits back into its pitch name and its octave. */
  lemma RenderedKeyReadsBack(n: MusicalNote)
    requires !IsRest(n) && '/' !in n.pitch
    ensures |RenderNote(n).keys| == 1
    ensures Split(RenderNote(n).keys[0], '/') == [n.pitch, IntToString(n.octave)]
    ensures ParseInt(Split(RenderNote(n).keys[0], '/')[1]) == Some(n.octave)
  {
    var digits := IntToString(n.octave);
    assert '/' !in digits;
    assert RenderNote(n).keys[0] == n.pitch + ['/'] + digits;
    SplitTwo(n.pitch, digits, '/');
    IntToStringRoundTrip(n.octave);
  }

  function RenderAll(notes: seq<MusicalNote>): (vs: seq<VexNote>)
    ensures |vs| == |notes|
  {
    seq(|notes|, j requires 0 <= j < |notes| => RenderNote(notes[j]))
  }

  function RenderMeasures(ms: seq<seq<MusicalNote>>): (vs: seq<VexMeasure>)
    ensures |vs| == |ms|
  {
    seq(|ms|, i requires 0 <= i < |ms| => VexMeasure(RenderAll(ms[i]), None))
  }

  /** The rendered notes of a list of measures, in order. */
  function Flat(vs: seq<VexMeasure>): seq<VexNote>
  {
    if |vs| == 0 then [] else Flat(vs[..|vs| - 1]) + vs[|vs| - 1].notes
  }

  /** Rendering measure by measure and reading the result back in order is the
      same as rendering the notes one after another. */
  lemma {:induction false} FlatRender(ms: seq<seq<MusicalNote>>)
    ensures Flat(RenderMeasures(ms)) == RenderAll(Concat(ms))
    decreases |ms|
  {
    if |ms| > 0 {
      var init := ms[..|ms| - 1];
      FlatRender(init);
      assert RenderMeasures(ms)[..|ms| - 1] == RenderMeasures(init);
      assert RenderAll(Concat(init) + ms[|ms| - 1]) == RenderAll(Concat(init)) + RenderAll(ms[|ms| - 1]);
    }
  }

  // ---------------------------------------------------------------- metadata

  /** The end time of every note, in seconds. */
  function Ends(notes: seq<MusicalNote>, beat: real): (ends: seq<real>)
    ensures |ends| == |notes|
    ensures forall k :: 0 <= k < |notes| ==> ends[k] == EndTime(TimingOf(notes[k]), beat)
  {
    seq(|notes|, k requires 0 <= k < |notes| => EndTime(TimingOf(notes[k]), beat))
  }

  /** `max(...)` of a non-empty sequence: an element no smaller than any other. */
  function Max(xs: seq<real>): (m: real)
    requires |xs| > 0
    ensures forall k :: 0 <= k < |xs| ==> xs[k] <= m
    ensures m in xs
  {
    if |xs| == 1 then xs[0]
    else
      var before := Max(xs[..|xs| - 1]);
      assert forall k :: 0 <= k < |xs| - 1 ==> xs[..|xs| - 1][k] == xs[k];
      if before >= xs[|xs| - 1] then before else xs[|xs| - 1]
  }

  /** `_empty_result`. */
  function EmptyResult(g: Generator, tempo: int): (VexFlowData, MusicMetadata)
  {
    (VexFlowData([], "treble", "C"), MusicMetadata(tempo, g.timeSignature, "C", 0.0, 0))
  }

  /** `generate_vexflow_data`; `correlate` stands for the key correlation. */
  function GenerateVexflowData(g: Generator, notes: seq<MusicalNote>, tempo: int, correlate: seq<MusicalNote> -> string)
    : (r: (VexFlowData, MusicMetadata))
    requires |notes| > 0 ==> tempo != 0
    ensures r.1.tempo == tempo && r.1.timeSignature == g.timeSignature && r.1.keySignature == r.0.key
    ensures |notes| == 0 ==> r.0.measures == [] && r.0.clef == "treble" && r.0.key == "C"
    ensures |notes| == 0 ==> r.1.totalDuration == 0.0 && r.1.noteCount == 0
    ensures |notes| > 0 ==> forall k :: 0 <= k < |r.0.measures| ==> |r.0.measures[k].notes| > 0
    ensures |notes| > 0 ==> r.0.measures == RenderMeasures(GroupIntoMeasures(notes, g.beatsPerMeasure))
  {
    if |notes| == 0 then EmptyResult(g, tempo)
    else
      var key := DetectKeySignature(notes, correlate);
      var measures := GroupIntoMeasures(notes, g.beatsPerMeasure);
      (VexFlowData(RenderMeasures(measures), DetermineClef(notes), key),
       MusicMetadata(tempo, g.timeSignature, key, Max(Ends(notes, BeatSeconds(tempo as real))), CountPitched(notes)))
  }

  /** Reading the measures in order gives every input note rendered once, in
      input order. */
  lemma RenderedInOrder(g: Generator, notes: seq<MusicalNote>, tempo: int, correlate: seq<MusicalNote> -> string)
    requires |notes| > 0 && tempo != 0
    ensures Flat(GenerateVexflowData(g, notes, tempo, correlate).0.measures) == RenderAll(notes)
  {
    FlatRender(GroupIntoMeasures(notes, g.beatsPerMeasure));
  }

  /** The total duration is the latest end time of any note, rests included. */
  lemma TotalDurationIsLatestEnd(g: Generator, notes: seq<MusicalNote>, tempo: int, correlate: seq<MusicalNote> -> string)
    requires |notes| > 0 && tempo != 0
    ensures var total := GenerateVexflowData(g, notes, tempo, correlate).1.totalDuration;
            forall k :: 0 <= k < |notes| ==> EndTime(TimingOf(notes[k]), BeatSeconds(tempo as real)) <= total
    ensures var total := GenerateVexflowData(g, notes, tempo, correlate).1.totalDuration;
            exists k :: 0 <= k < |notes| && total == EndTime(TimingOf(notes[k]), BeatSeconds(tempo as real))
  {
    var ends := Ends(notes, BeatSeconds(tempo as real));
    var k :| 0 <= k < |ends| && ends[k] == Max(ends);
    assert ends[k] == EndTime(TimingOf(notes[k]), BeatSeconds(tempo as real));
  }

  /** The count, clef and key of the result, in terms of the pitched notes. */
  lemma GeneratedSummary(g: Generator, notes: seq<MusicalNote>, tempo: int, correlate: seq<MusicalNote> -> string)
    requires |notes| > 0 ==> tempo != 0
    ensures var r := GenerateVexflowData(g, notes, tempo, correlate);
            r.1.noteCount == |PitchedTimings(Timings(notes))|
    ensures var r := GenerateVexflowData(g, notes, tempo, correlate);
            r.0.clef == "bass" <==> CountPitched(notes) > 0 && OctaveSum(notes) <= 2 * CountPitched(notes)
    ensures var r := GenerateVexflowData(g, notes, tempo, correlate);
            r.0.key == if CountPitched(notes) == 0 then "C" else correlate(notes)
  {
    CountPitchedIsPitchedTimings(notes);
    ClefIsBassIff(notes);
    KeyDetection(notes, correlate);
  }
}
