# Sheet-music transcription core, modelled in Dafny

This project models the symbolic half of the audio-to-sheet-music backend: everything after
pitch detection. Detected pitch events (frequency, start, length) go through these steps:

- Pitches are snapped to the allowed note names.
- Durations are quantised with a Viterbi dynamic programme over a sixteenth-note grid, so notes
  fill measures cleanly.
- Silent gaps become rests.
- Excessive octave jumps are smoothed.
- The notes are grouped into measures and rendered as VexFlow data, with a clef, a key and
  metadata.

A progress tracker records each transcription job's state and broadcasts events to its
subscribers.

The modules follow the program's structure:

- `Outcomes`: the `Result` and `Option` wrappers and the error kinds.
- `Arith`: Python's round-half-to-even, and numpy's first arg-min.
- `Decimal`: decimal text of integers, as `int()` and `str()` use it.
- `MusicTheory`, `Viterbi`: `backend/app/utils/music_theory.py`.
- `Notes`: the `PitchEvent` and `MusicalNote` records, and the timing views of a note list.
- `TimeSignature`: `"n/d"` parsing, shared by the quantiser and the notation generator.
- `NoteQuantizer`: `backend/app/services/note_quantizer.py`.
- `NotationGenerator`: `backend/app/services/notation_generator.py`.
- `ProgressTracker`: `backend/app/utils/progress_tracker.py`, as a pure state machine over maps.
  Each subscriber queue becomes an append-only sequence of events.

Arithmetic is exact:

- Python floats are `real`.
- Python's `round` is `Arith.RoundHalfEven`.
- Python's `//` and `%` by 12 agree with Dafny's Euclidean operators for every integer.

## Model

| member | source | states |
|---|---|---|
| Arith.RoundHalfEven | backend/app/utils/music_theory.py:174 | the result is within one half of its argument, and on an exact tie it is even, as Python's `round` |
| Arith.FirstArgMin | backend/app/utils/music_theory.py:91 | the index holds a minimum of the costs and every earlier cost is strictly larger, i.e. the first minimum as `np.argmin` picks it |
| Decimal.IntToStringRoundTrip | backend/app/services/notation_generator.py:42 | parsing the decimal text of any integer gives that integer back |
| MusicTheory.MidiNameRoundTrip | backend/app/utils/music_theory.py:13-23 | every MIDI number maps to a sharp name of its pitch class and an octave whose range contains it; converting back gives the same number |
| MusicTheory.NameMidiRoundTrip | backend/app/utils/music_theory.py:13-47 | a sharp name and an octave converted to MIDI and back give the same name and octave |
| MusicTheory.NoteNameToMidiAccepts | backend/app/utils/music_theory.py:34-45 | a name converts if and only if it is one of the 17 sharp or flat spellings; any other name fails with an invalid-name error carrying that name |
| MusicTheory.EnharmonicEquivalence | backend/app/utils/music_theory.py:34-42 | each flat spelling names the same MIDI number as its sharp twin in every octave |
| MusicTheory.NoteNameToMidiRange | backend/app/utils/music_theory.py:47 | a valid name in octave `o` lands in the twelve numbers `12(o+1)` to `12(o+2)-1` |
| MusicTheory.GetAllowedMidiNotes | backend/app/utils/music_theory.py:50-72 | the result is strictly increasing, lies in 0..127, and holds exactly the numbers some allowed name spells in octaves 0 to 8 |
| MusicTheory.AllowedMidiSkipsInvalid | backend/app/utils/music_theory.py:65-70 | unknown names contribute nothing: the result equals the one for the valid names alone |
| MusicTheory.AllChromaticAllowed | backend/app/utils/music_theory.py:60-72 | with all twelve names allowed, exactly the MIDI numbers 12 to 119 are allowed |
| MusicTheory.FindNearestAllowedNote | backend/app/utils/music_theory.py:75-93 | an empty list returns the input; otherwise the result is an allowed number at least as close as every other, and no earlier entry is as close |
| MusicTheory.QuantizeDurationNearest | backend/app/utils/music_theory.py:96-126 | the code returned is the table entry whose beat value is nearest the duration in beats, the first such entry on a tie |
| MusicTheory.DurationBeatsIgnoresRest | backend/app/services/notation_generator.py:29-31 | a rest marker before or after a code does not change its beat value |
| MusicTheory.DurationBeatsOfCode | backend/app/services/notation_generator.py:23-26 | each of the eight codes, with or without the rest marker, has the beat value of its table entry |
| MusicTheory.DurationBeatsDefault | backend/app/services/notation_generator.py:29-31 | a code outside the table counts as one beat, and every code's value is one of the table's values |
| TimeSignature.SplitJoin | backend/app/services/notation_generator.py:42 | splitting text at a separator and joining the parts with it gives the text back |
| TimeSignature.ParseTimeSignatureRoundTrip | backend/app/services/notation_generator.py:41-43 | the text `n/d` parses to `4n/d` quarter beats per measure, and fails with a zero-denominator error when `d` is 0 |
| TimeSignature.SplitCount | backend/app/services/notation_generator.py:42 | splitting at a separator yields one more piece than the text holds separators |
| TimeSignature.ParseTimeSignatureNeedsOneSlash | backend/app/services/notation_generator.py:42 | text whose count of `/` characters is not exactly one is rejected as malformed with that text, as unpacking the split into two names rejects any other number of pieces |
| TimeSignature.CommonSignatures | backend/app/services/note_quantizer.py:45-46 | 4/4 gives four quarter beats per measure, and 3/4 and 6/8 give three |
| Viterbi.GridIsBeatTableReversed | backend/app/utils/music_theory.py:133-142 | the DP duration grid is the greedy duration table in reverse order, entry by entry |
| Viterbi.CellTableIsRoundedGrid | backend/app/utils/music_theory.py:194 | each code's cell count is its beat value over the sixteenth grid unit, rounded half-even, and a beat is four cells |
| Viterbi.BestEnd | backend/app/utils/music_theory.py:204 | a reached end position is chosen whenever one exists; it has the least cost, and every earlier position costs strictly more or is unreached |
| Viterbi.Step | backend/app/utils/music_theory.py:187-201 | every reached cell of the next layer comes from a reached cell of this one with exactly the cost of that transition; every transition from a reached cell bounds its target's cost |
| Viterbi.LayerBound | backend/app/utils/music_theory.py:185-201 | after `i` notes, the cell where any code path ends is reached, with a cost no greater than that path's cost |
| Viterbi.TraceCorrect | backend/app/utils/music_theory.py:206-216 | the traceback from a reached cell rebuilds a path that ends at that cell and costs exactly the cell's cost |
| Viterbi.LastLayerReached | backend/app/utils/music_theory.py:209-213 | the chosen end cell is always reached, so the traceback's missing-entry branch never applies |
| Viterbi.ViterbiOptimal | backend/app/utils/music_theory.py:147-218 | the traced codes cost no more than any other choice of codes of the same length |
| Viterbi.ViterbiPrefersEarliestEnd | backend/app/utils/music_theory.py:203-204 | any path ending at an earlier measure position than the chosen one costs strictly more |
| Viterbi.QuantizeSequenceViterbi | backend/app/utils/music_theory.py:169-218 | one grid code per duration, and none for no durations |
| Viterbi.QuantizeSequenceViterbiOptimal | backend/app/utils/music_theory.py:147-218 | the codes returned are those of a grid path whose cost is minimal among all paths, at the measure length the signature gives |
| Notes.CountPitchedIsPitchedTimings | backend/app/services/notation_generator.py:82 | the pitched count equals the number of non-rest notes in the list |
| NoteQuantizer.NewQuantizer | backend/app/services/note_quantizer.py:29-46 | a quantiser that is built always has at least one allowed MIDI number |
| NoteQuantizer.NewQuantizerRejects | backend/app/services/note_quantizer.py:35-42 | construction fails for lack of valid notes if and only if no given name is a known spelling |
| NoteQuantizer.NewQuantizerDefaultAllowed | backend/app/services/note_quantizer.py:27-36 | without a list of names, construction never fails for lack of allowed notes |
| NoteQuantizer.NewQuantizerReadsSignature | backend/app/services/note_quantizer.py:44-46 | with a known name, construction fails exactly when the time signature does, with its error; otherwise the state holds the names, the tempo, their MIDI numbers and the measure length |
| NoteQuantizer.SortByStart | backend/app/services/note_quantizer.py:65 | the result is a permutation of the events, ordered by start time |
| NoteQuantizer.SortByStartStable | backend/app/services/note_quantizer.py:65 | the events sharing any start time keep their input order, as Python's stable sort keeps them |
| NoteQuantizer.NoteLabelNotRest | backend/app/services/note_quantizer.py:109 | a note's label is never the rest marker, so pitched notes are never mistaken for rests |
| NoteQuantizer.SnapNoteNearest | backend/app/services/note_quantizer.py:97-110 | the note made for an event names a MIDI number that is the event's own number when nothing is allowed, and otherwise an allowed number no farther from the event's number than any other allowed one, with every earlier allowed number strictly farther; its label is name and octave, and it keeps the event's start, frequency and code |
| NoteQuantizer.SnappedWellFormed | backend/app/services/note_quantizer.py:98-100 | a snapped pitched note names an allowed MIDI number whenever any is allowed |
| NoteQuantizer.AddEventKeeps | backend/app/services/note_quantizer.py:77-110 | one loop iteration keeps the invariant: notes snapped, the last one pitched, the pitched notes the events' so far in order, and rests well placed |
| NoteQuantizer.BuildNotes | backend/app/services/note_quantizer.py:75-110 | after the loop, the pitched notes are exactly the events' in order, and each rest starts where the previous note ends and fills a gap of at least a quarter beat with that gap's greedy code |
| NoteQuantizer.SameName | backend/app/services/note_quantizer.py:145-148 | the candidates are exactly the allowed numbers whose pitch class has the note's name, and they stay increasing when the allowed numbers are |
| NoteQuantizer.SameNameAppend | backend/app/services/note_quantizer.py:145-148 | the candidates of a joined list are the candidates of each part, joined in the same order: the comprehension keeps the allowed list's order |
| NoteQuantizer.RetargetFacts | backend/app/services/note_quantizer.py:143-163 | a re-targeted note changes only its octave and label and keeps its timing; it names the candidate nearest the remembered number, no candidate being closer and every earlier candidate strictly farther, as `min` picks the first minimum |
| NoteQuantizer.LastMidiSource | backend/app/services/note_quantizer.py:128-165 | the remembered MIDI number is that of the last pitched note before the current one, with only rests between them |
| NoteQuantizer.SmoothingPreserves | backend/app/services/note_quantizer.py:115-168 | smoothing keeps every timing, every name and every rest; a changed note followed a jump of more than the limit from the last pitched note, moved only its octave, and names an allowed number |
| NoteQuantizer.SmoothingTarget | backend/app/services/note_quantizer.py:124-168 | a note that is pitched, not the first, has a remembered number more than the limit away from its own, and whose name has allowed numbers is spelled after the candidate of its name that `FindNearestAllowedNote` picks for the remembered number, keeping its duration, start and frequency and taking the new label; every other note is returned exactly as it was |
| NoteQuantizer.SmoothedOutput | backend/app/services/note_quantizer.py:124-168 | smoothing snapped notes leaves every note well formed; each pitched note keeps its frequency and its name-and-octave label, and is spelled after the allowed number nearest its frequency, or after a jump after the candidate of that name nearest the remembered number |
| NoteQuantizer.QuantizePitches | backend/app/services/note_quantizer.py:48-113 | no events give no notes; the pitched notes are the sorted events with their Viterbi codes; rests are well placed and silent; every pitched note carries its frequency and its name-and-octave label, and is spelled after the allowed number nearest its frequency, or, when it jumps more than 12 semitones from the remembered number and its name has allowed numbers, after the one of that name nearest the remembered number |
| NotationGenerator.NewGeneratorBeats | backend/app/services/notation_generator.py:37-43 | a generator for `n/d` keeps that text and counts `4n/d` beats per measure; a zero denominator fails |
| NotationGenerator.DefaultGenerator | backend/app/services/notation_generator.py:37-39 | the default 4/4 generator counts four beats per measure |
| NotationGenerator.GroupedMeasures | backend/app/services/notation_generator.py:131-152 | the loop leaves no measures exactly when there are no notes; otherwise its measures concatenate back to the notes, fit, and were closed only on overflow |
| NotationGenerator.GroupIntoMeasures | backend/app/services/notation_generator.py:131-152 | the measures concatenate back to the notes; no notes give one empty measure; otherwise every measure is nonempty, fits the measure unless it is a single note, and a measure is closed only when the next note would overflow it |
| NotationGenerator.FoldGrouped | backend/app/services/notation_generator.py:133-150 | the loop's state after any prefix concatenates to that prefix, its running beat count is the open measure's sum, and its measures fit and were closed only on overflow |
| NotationGenerator.ClefIsBassIff | backend/app/services/notation_generator.py:154-161 | the clef is bass if and only if some note is pitched and the pitched notes' mean octave is at most 2 |
| NotationGenerator.PitchedBeatsZero | backend/app/services/notation_generator.py:104-113 | the histogram's total weight is never negative, and is zero if and only if no note is pitched |
| NotationGenerator.KeyDetection | backend/app/services/notation_generator.py:94-113 | with no pitched notes the key is C; otherwise it is whatever the profile correlation chooses |
| NotationGenerator.RenderedKeyReadsBack | backend/app/services/notation_generator.py:60-64 | a pitched note renders as one key that splits at the slash into its name and octave text, and the octave parses back to the note's octave |
| NotationGenerator.FlatRender | backend/app/services/notation_generator.py:56-65 | flattening the rendered measures gives the rendering of the concatenated measures |
| NotationGenerator.RenderedInOrder | backend/app/services/notation_generator.py:54-65 | the rendered measures, read in order, are the input notes rendered one by one, none lost or repeated |
| NotationGenerator.Max | backend/app/services/notation_generator.py:76-79 | the maximum is one of the values and no value exceeds it |
| NotationGenerator.TotalDurationIsLatestEnd | backend/app/services/notation_generator.py:75-79 | the total duration is the end time of some note, and no note ends later |
| NotationGenerator.GenerateVexflowData | backend/app/services/notation_generator.py:45-92 | the metadata repeats the tempo, the time signature and the data's key; no notes give the empty result; otherwise the measures are the grouping of the notes at the generator's measure length, rendered note by note, and none is empty |
| NotationGenerator.RenderNote | backend/app/services/notation_generator.py:59-64 | each note renders as exactly one key with the note's duration, and a rest renders as the key `b/4` |
| NotationGenerator.GeneratedSummary | backend/app/services/notation_generator.py:53-90 | the note count is the number of pitched notes; the clef is bass if and only if the pitched mean octave is at most 2; the key is C exactly when nothing is pitched |
| ProgressTracker.CreateJob | backend/app/utils/progress_tracker.py:16-30 | the job reads back queued at 0 percent, with no result and no error, and an empty subscriber set; every other job and queue is unchanged |
| ProgressTracker.Subscribe | backend/app/utils/progress_tracker.py:32-47 | a fresh empty queue joins the job's subscribers, which are created when missing; other subscriptions and all jobs are unchanged |
| ProgressTracker.Unsubscribe | backend/app/utils/progress_tracker.py:49-58 | only the given queue leaves the job's subscribers; jobs, queues and the next queue id are unchanged; a queue that was not subscribed leaves the tracker unchanged |
| ProgressTracker.SubscribeThenUnsubscribe | backend/app/utils/progress_tracker.py:42-58 | subscribing and then unsubscribing the returned queue restores the job's subscriber set |
| ProgressTracker.UpdateProgress | backend/app/utils/progress_tracker.py:60-97 | unknown jobs are ignored; an out-of-range percent raises after the record is updated and reaches no subscriber; otherwise exactly the job's subscribers receive one progress event, and other jobs are untouched |
| ProgressTracker.CompleteJob | backend/app/utils/progress_tracker.py:99-123 | a known job becomes completed at 100 percent with its result, and exactly its subscribers receive the result; unknown jobs change nothing |
| ProgressTracker.FailJob | backend/app/utils/progress_tracker.py:125-148 | a known job becomes failed, its message prefixed with "Failed: " and its error kept, and exactly its subscribers receive the error; unknown jobs change nothing |
| ProgressTracker.CleanupJob | backend/app/utils/progress_tracker.py:150-170 | afterwards the job's status reads as absent and it has no subscriber set; every other job's status, every other job's subscriber set, every queue and the next queue id are unchanged |
| ProgressTracker.CleanupIdempotent | backend/app/utils/progress_tracker.py:162-170 | cleaning a job twice is the same as once |
| ProgressTracker.CleanedUpJobIsInert | backend/app/utils/progress_tracker.py:76-148 | after cleanup, progress, completion and failure for that job change nothing |
| ProgressTracker.ApplyKeeps | backend/app/utils/progress_tracker.py:16-170 | every operation keeps subscribed queues existing, never reuses a queue id, and only appends to existing queues |
| ProgressTracker.RunKeeps | backend/app/utils/progress_tracker.py:11-170 | from a fresh or consistent tracker, any sequence of operations keeps that consistency, and no delivered event is ever lost or reordered |

## Left out

- `frequency_to_midi` calls librosa's `hz_to_midi`. That conversion is the parameter `hzToMidi`. `MusicTheory.FrequencyToMidi` keeps only the zero answer for non-positive frequencies, and every property holds whatever `hzToMidi` returns.
- The Krumhansl–Schmuckler correlation against the 24 key profiles is floating-point statistics. It is the parameter `correlate`. `NotationGenerator.DetectKeySignature` models only the two early returns of C.
- `detect_time_signature` is audio analysis and is not part of this model. The same goes for pitch detection, source separation, preprocessing, the HTTP routes and server-sent events, the application entry point and its configuration.
- The browser's playback scheduler is not part of this model: the repository's backend does not contain it.
- Floating point: every sum and quotient is exact.
  - A rounding difference in the source could move a note across the `1e-6` measure tolerance or the quarter-beat rest threshold. The model does not follow that.
  - The Viterbi costs and the total duration are exact reals too.
- Python's `int()` also accepts surrounding whitespace, digit-separating underscores and non-ASCII Unicode decimal digits. `Decimal.ParseInt` accepts an optional `-` or `+` followed by ASCII digits only, so time signatures written with the other forms are rejected here and accepted by the source.
- A tempo of zero makes the source divide by zero. The model requires a non-zero tempo exactly where the source divides by it: always in `QuantizeDuration`, and in `QuantizePitches` and `GenerateVexflowData` only when they are given at least one event or note. With none, both return before dividing.
- NotationGenerator.DetermineClef: the source compares a float mean. The model compares exactly (`ClefIsBassIff`).
- The progress tracker's queues are unbounded sequences.
  - `queue.put` never blocks or raises, so the swallowed exception has no counterpart.
  - Concurrent interleaving of the coroutines is not modelled: each operation is one atomic step.
  - The result payload is a type parameter.
- Of pydantic validation, only the 0..100 range of `ProgressEvent.percent` is modelled. It raises `InvalidPercent` after the record update, as the source does.
