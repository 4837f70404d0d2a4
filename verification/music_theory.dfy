/** Note-name, MIDI and duration arithmetic of `backend/app/utils/music_theory.py`
    (the Viterbi duration quantiser lives in module Viterbi). */
module MusicTheory {
  import opened Outcomes
  import opened Arith

  // ---------------------------------------------------------------------------
  // Pitch names and MIDI numbers
  // ---------------------------------------------------------------------------

  /** The spellings `midi_to_note_name` produces, indexed by pitch class. */
  const SharpNames: seq<string> := ["C", "C#", "D", "D#", "E", "F", "F#", "G", "G#", "A", "A#", "B"]

  /** The five flat spellings `note_name_to_midi` also accepts. */
  const FlatNames: seq<string> := ["Db", "Eb", "Gb", "Ab", "Bb"]

  /** Each flat spelling next to the sharp spelling of the same pitch class. */
  const EnharmonicPairs: seq<(string, string)> := [("C#", "Db"), ("D#", "Eb"), ("F#", "Gb"), ("G#", "Ab"), ("A#", "Bb")]

  /** `note_map` of `note_name_to_midi`: 17 spellings and their pitch classes. */
  const NoteMap: map<string, int> := map[
    "C" := 0, "C#" := 1, "Db" := 1,
    "D" := 2, "D#" := 3, "Eb" := 3,
    "E" := 4,
    "F" := 5, "F#" := 6, "Gb" := 6,
    "G" := 7, "G#" := 8, "Ab" := 8,
    "A" := 9, "A#" := 10, "Bb" := 10,
    "B" := 11]

  /** `note_name_to_midi`: an unknown spelling raises ValueError. */
  function NoteNameToMidi(name: string, octave: int): Result<int>
  {
    if name !in NoteMap then Failure(InvalidNoteName(name))
    else Success((octave + 1) * 12 + NoteMap[name])
  }

  /** `midi_to_note_name`: Python's `//` and `%` by 12 round toward minus
      infinity, which is what Dafny's `/` and `%` do for a positive divisor. */
  function MidiToNoteName(midi: int): (string, int)
  {
    (SharpNames[midi % 12], midi / 12 - 1)
  }

  /** The table accepts exactly the twelve sharp spellings and the five flat ones;
      every other name is an error naming it. */
  lemma NoteNameToMidiAccepts(name: string, octave: int)
    ensures NoteNameToMidi(name, octave).Success? <==> name in SharpNames || name in FlatNames
    ensures NoteNameToMidi(name, octave).Failure? ==> NoteNameToMidi(name, octave).error == InvalidNoteName(name)
  {
  }

  /** A sharp spelling's pitch class is its position in the chromatic scale. */
  lemma {:induction false} SharpNameToMidi(k: nat, octave: int)
    requires k < 12
    ensures NoteNameToMidi(SharpNames[k], octave) == Success((octave + 1) * 12 + k)
  {
    assert NoteMap[SharpNames[k]] == k by {
      if k == 0 {} else if k == 1 {} else if k == 2 {} else if k == 3 {}
      else if k == 4 {} else if k == 5 {} else if k == 6 {} else if k == 7 {}
      else if k == 8 {} else if k == 9 {} else if k == 10 {} else {}
    }
  }

  /** Both spellings of a black key give the same MIDI number, one semitone above
      the white key below it. */
  lemma EnharmonicEquivalence(i: nat, octave: int)
    requires i < |EnharmonicPairs|
    ensures NoteNameToMidi(EnharmonicPairs[i].0, octave).Success?
    ensures NoteNameToMidi(EnharmonicPairs[i].0, octave) == NoteNameToMidi(EnharmonicPairs[i].1, octave)
  {
  }

  /** Every flat spelling has a sharp twin in the table. */
  lemma FlatsHaveSharpTwins(name: string)
    requires name in FlatNames
    ensures exists i :: 0 <= i < |EnharmonicPairs| && EnharmonicPairs[i].1 == name
  {
    var i :| 0 <= i < |FlatNames| && FlatNames[i] == name;
    assert EnharmonicPairs[i].1 == name;
  }

  /** Naming a MIDI number and reading the name back gives the number again, for
      every integer (negative ones included); the name is a sharp spelling and the
      octave is the floor of `midi / 12` minus one. */
  lemma MidiNameRoundTrip(midi: int)
    ensures MidiToNoteName(midi).0 in SharpNames
    ensures MidiToNoteName(midi).0 == SharpNames[midi % 12]
    ensures (MidiToNoteName(midi).1 + 1) * 12 <= midi < (MidiToNoteName(midi).1 + 2) * 12
    ensures NoteNameToMidi(MidiToNoteName(midi).0, MidiToNoteName(midi).1) == Success(midi)
  {
    SharpNameToMidi(midi % 12, midi / 12 - 1);
  }

  /** The other direction: a sharp spelling at any octave is named back unchanged. */
  lemma NameMidiRoundTrip(k: nat, octave: int)
    requires k < 12
    ensures NoteNameToMidi(SharpNames[k], octave).Success?
    ensures MidiToNoteName(NoteNameToMidi(SharpNames[k], octave).value) == (SharpNames[k], octave)
  {
    SharpNameToMidi(k, octave);
    var m := (octave + 1) * 12 + k;
    assert m % 12 == k && m / 12 == octave + 1;
  }

  /** Every accepted spelling lands in the octave it names. */
  lemma NoteNameToMidiRange(name: string, octave: int)
    requires name in NoteMap
    ensures (octave + 1) * 12 <= NoteNameToMidi(name, octave).value < (octave + 2) * 12
  {
  }

  // ---------------------------------------------------------------------------
  // Allowed MIDI notes
  // ---------------------------------------------------------------------------

  predicate StrictlyIncreasing(s: seq<int>)
  {
    forall i, j :: 0 <= i < j < |s| ==> s[i] < s[j]
  }

  /** Spelling `allowed[k]` at `octave` gives `m`, and `m` is a MIDI number. */
  predicate Produces(allowed: seq<string>, octave: int, k: int, m: int)
  {
    0 <= k < |allowed| && NoteNameToMidi(allowed[k], octave) == Success(m) && 0 <= m <= 127
  }

  /** Inner loop of `get_allowed_midi_notes`: the names `allowed[..i]` at one
      octave, invalid names skipped, out-of-range numbers dropped. */
  function CollectNames(allowed: seq<string>, octave: int, i: nat): (r: seq<int>)
    requires i <= |allowed|
    ensures forall m :: m in r <==> exists k :: 0 <= k < i && Produces(allowed, octave, k, m)
  {
    if i == 0 then []
    else
      var rest := CollectNames(allowed, octave, i - 1);
      var here := match NoteNameToMidi(allowed[i - 1], octave)
        case Success(m) => if 0 <= m <= 127 then [m] else []
        case Failure(_) => [];
      assert forall m :: m in here <==> Produces(allowed, octave, i - 1, m);
      rest + here
  }

  /** Outer loop: octaves `0 .. o - 1`. */
  function CollectOctaves(allowed: seq<string>, o: nat): (r: seq<int>)
    ensures forall m :: m in r <==> exists k, oct :: 0 <= oct < o && Produces(allowed, oct, k, m)
  {
    if o == 0 then []
    else
      var rest := CollectOctaves(allowed, o - 1);
      var here := CollectNames(allowed, o - 1, |allowed|);
      assert forall m :: m in here ==> exists k, oct :: 0 <= oct < o && Produces(allowed, oct, k, m) by {
        forall m | m in here ensures exists k, oct :: 0 <= oct < o && Produces(allowed, oct, k, m) {
          var k :| 0 <= k < |allowed| && Produces(allowed, o - 1, k, m);
          assert Produces(allowed, o - 1, k, m);
        }
      }
      rest + here
  }

  /** The members of `s` in `lo .. hi - 1`, in ascending order. */
  function Ascending(s: set<int>, lo: int, hi: int): (r: seq<int>)
    ensures forall m :: m in r <==> m in s && lo <= m < hi
    ensures forall i :: 0 <= i < |r| ==> lo <= r[i] < hi
    ensures StrictlyIncreasing(r)
    decreases hi - lo
  {
    if lo >= hi then []
    else (if lo in s then [lo] else []) + Ascending(s, lo + 1, hi)
  }

  /** Some name of `allowed`, spelled at one of the octaves 0 to 8, gives `m`. */
  ghost predicate Spells(allowed: seq<string>, m: int)
  {
    exists k, o :: 0 <= k < |allowed| && 0 <= o < 9 && NoteNameToMidi(allowed[k], o) == Success(m)
  }

  /** `get_allowed_midi_notes`: `sorted(set(...))` of every spelling in `allowed`
      at octaves 0 to 8. */
  function GetAllowedMidiNotes(allowed: seq<string>): (r: seq<int>)
    ensures StrictlyIncreasing(r)
    ensures forall i :: 0 <= i < |r| ==> 0 <= r[i] <= 127
    ensures forall m :: m in r <==> Spells(allowed, m)
  {
    AllowedMembers(allowed);
    Ascending(SetOf(CollectOctaves(allowed, 9)), 0, 128)
  }

  function SetOf(s: seq<int>): (r: set<int>)
    ensures forall m :: m in r <==> m in s
  {
    set m | m in s
  }

  lemma AllowedMembers(allowed: seq<string>)
    ensures forall m :: m in Ascending(SetOf(CollectOctaves(allowed, 9)), 0, 128) <==> Spells(allowed, m)
  {
    var r := Ascending(SetOf(CollectOctaves(allowed, 9)), 0, 128);
    forall m ensures m in r <==> Spells(allowed, m) {
      if Spells(allowed, m) {
        SpellsProduced(allowed, m);
      }
      if m in r {
        var k, o :| 0 <= o < 9 && Produces(allowed, o, k, m);
        ProducedSpells(allowed, m, k, o);
      }
    }
  }

  lemma SpellsProduced(allowed: seq<string>, m: int)
    requires Spells(allowed, m)
    ensures exists k, oct :: 0 <= oct < 9 && Produces(allowed, oct, k, m)
  {
    var k, o :| 0 <= k < |allowed| && 0 <= o < 9 && NoteNameToMidi(allowed[k], o) == Success(m);
    NoteNameToMidiRange(allowed[k], o);
    assert Produces(allowed, o, k, m);
  }

  lemma ProducedSpells(allowed: seq<string>, m: int, k: int, o: int)
    requires 0 <= o < 9 && Produces(allowed, o, k, m)
    ensures Spells(allowed, m)
  {
  }

  /** Two strictly increasing sequences with the same members are equal. */
  lemma {:induction false} StrictlyIncreasingUnique(a: seq<int>, b: seq<int>)
    requires StrictlyIncreasing(a) && StrictlyIncreasing(b)
    requires forall m :: m in a <==> m in b
    ensures a == b
    decreases |a|
  {
    assert |a| > 0 ==> a[0] in a;
    assert |b| > 0 ==> b[0] in b;
    if |a| > 0 && |b| > 0 {
      // the smallest member comes first in both
      assert a[0] in a && b[0] in b;
      var i :| 0 <= i < |a| && a[i] == b[0];
      var j :| 0 <= j < |b| && b[j] == a[0];
      assert a[0] <= a[i] && b[0] <= b[j];
      assert a[0] == b[0];
      forall m ensures m in a[1..] <==> m in b[1..] {
        if m in a[1..] {
          var i :| 1 <= i < |a| && a[i] == m;
          assert m in a && m != a[0];
          var j :| 0 <= j < |b| && b[j] == m;
          assert j != 0;
          assert b[1..][j - 1] == m;
        }
        if m in b[1..] {
          var i :| 1 <= i < |b| && b[i] == m;
          assert m in b && m != b[0];
          var j :| 0 <= j < |a| && a[j] == m;
          assert j != 0;
          assert a[1..][j - 1] == m;
        }
      }
      StrictlyIncreasingUnique(a[1..], b[1..]);
      assert a == [a[0]] + a[1..] && b == [b[0]] + b[1..];
    }
  }

  /** The names `get_allowed_midi_notes` accepts, in their original order. */
  function ValidNames(allowed: seq<string>): (r: seq<string>)
    ensures forall n :: n in r <==> n in allowed && n in NoteMap
  {
    if |allowed| == 0 then []
    else
      ValidNames(allowed[..|allowed| - 1]) +
      (if allowed[|allowed| - 1] in NoteMap then [allowed[|allowed| - 1]] else [])
  }

  lemma SpellsValidNames(allowed: seq<string>, m: int)
    ensures Spells(allowed, m) <==> Spells(ValidNames(allowed), m)
  {
    var v := ValidNames(allowed);
    if Spells(allowed, m) {
      var k, o :| 0 <= k < |allowed| && 0 <= o < 9 && NoteNameToMidi(allowed[k], o) == Success(m);
      assert allowed[k] in v;
      var k' :| 0 <= k' < |v| && v[k'] == allowed[k];
      assert NoteNameToMidi(v[k'], o) == Success(m);
    }
    if Spells(v, m) {
      var k, o :| 0 <= k < |v| && 0 <= o < 9 && NoteNameToMidi(v[k], o) == Success(m);
      assert v[k] in allowed;
      var k' :| 0 <= k' < |allowed| && allowed[k'] == v[k];
      assert NoteNameToMidi(allowed[k'], o) == Success(m);
    }
  }

  /** Invalid names are skipped silently: the result is what the valid names
      alone would give. */
  lemma AllowedMidiSkipsInvalid(allowed: seq<string>)
    ensures GetAllowedMidiNotes(allowed) == GetAllowedMidiNotes(ValidNames(allowed))
  {
    var v := ValidNames(allowed);
    var r1 := GetAllowedMidiNotes(allowed);
    var r2 := GetAllowedMidiNotes(v);
    forall m ensures m in r1 <==> m in r2 {
      SpellsValidNames(allowed, m);
    }
    StrictlyIncreasingUnique(r1, r2);
  }

  /** With the full chromatic scale allowed, every MIDI number from C0 (12) to
      B8 (119) is allowed and nothing else. */
  lemma AllChromaticAllowed(m: int)
    ensures m in GetAllowedMidiNotes(SharpNames) <==> 12 <= m <= 119
  {
    if 12 <= m <= 119 {
      ChromaticSpells(m);
    }
    if Spells(SharpNames, m) {
      ChromaticRange(m);
    }
  }

  lemma ChromaticSpells(m: int)
    requires 12 <= m <= 119
    ensures Spells(SharpNames, m)
  {
    var k, o := m % 12, m / 12 - 1;
    SharpNameToMidi(k, o);
    assert NoteNameToMidi(SharpNames[k], o) == Success(m);
  }

  lemma ChromaticRange(m: int)
    requires Spells(SharpNames, m)
    ensures 12 <= m <= 119
  {
    var k, o :| 0 <= k < |SharpNames| && 0 <= o < 9 && NoteNameToMidi(SharpNames[k], o) == Success(m);
    SharpNameToMidi(k, o);
  }

  // ---------------------------------------------------------------------------
  // Nearest allowed note
  // ---------------------------------------------------------------------------

  function Distances(midi: int, allowed: seq<int>): (d: seq<real>)
    ensures |d| == |allowed|
    ensures forall i :: 0 <= i < |allowed| ==> d[i] == Abs(midi - allowed[i]) as real
  {
    seq(|allowed|, i requires 0 <= i < |allowed| => Abs(midi - allowed[i]) as real)
  }

  /** `find_nearest_allowed_note`: the first allowed number at the least distance,
      or the input itself when nothing is allowed. */
  function FindNearestAllowedNote(midi: int, allowed: seq<int>): (r: int)
    ensures |allowed| == 0 ==> r == midi
    ensures |allowed| > 0 ==> r in allowed
    ensures forall a :: a in allowed ==> Abs(midi - r) <= Abs(midi - a)
    ensures |allowed| > 0 ==>
      exists k :: 0 <= k < |allowed| && allowed[k] == r &&
        (forall j :: 0 <= j < k ==> Abs(midi - r) < Abs(midi - allowed[j]))
  {
    if |allowed| == 0 then midi
    else
      NearestIsFirstArgMin(midi, allowed);
      allowed[FirstArgMin(Distances(midi, allowed))]
  }

  lemma NearestIsFirstArgMin(midi: int, allowed: seq<int>)
    requires |allowed| > 0
    ensures var k := FirstArgMin(Distances(midi, allowed));
      && (forall a :: a in allowed ==> Abs(midi - allowed[k]) <= Abs(midi - a))
      && (forall j :: 0 <= j < k ==> Abs(midi - allowed[k]) < Abs(midi - allowed[j]))
  {
    var d := Distances(midi, allowed);
    var k := FirstArgMin(d);
    forall a | a in allowed ensures Abs(midi - allowed[k]) <= Abs(midi - a) {
      var j :| 0 <= j < |allowed| && allowed[j] == a;
      assert d[k] <= d[j];
    }
    forall j | 0 <= j < k ensures Abs(midi - allowed[k]) < Abs(midi - allowed[j]) {
      assert d[k] < d[j];
    }
  }

  // ---------------------------------------------------------------------------
  // Durations
  // ---------------------------------------------------------------------------

  /** `note_values` / `_DURATION_BEATS`: duration codes and their length in
      quarter beats, in the source's dictionary order. */
  const BeatTable: seq<(string, real)> := [
    ("w", 4.0), ("hd", 3.0), ("h", 2.0), ("qd", 1.5),
    ("q", 1.0), ("8d", 0.75), ("8", 0.5), ("16", 0.25)]

  /** `60.0 / tempo`: seconds per quarter beat. */
  function BeatSeconds(tempo: real): (s: real)
    requires tempo != 0.0
    ensures s * tempo == 60.0
  {
    60.0 / tempo
  }

  /** `dict.get(key)` on a table of pairs: the value of the first entry with
      that key, if any. */
  function LookupIn(table: seq<(string, real)>, key: string): (r: Option<real>)
    ensures r.None? <==> forall k :: 0 <= k < |table| ==> table[k].0 != key
    ensures forall k ::
              (0 <= k < |table| && table[k].0 == key && forall j :: 0 <= j < k ==> table[j].0 != key) ==>
                r == Some(table[k].1)
  {
    if |table| == 0 then None
    else if table[0].0 == key then Some(table[0].1)
    else
      var r := LookupIn(table[1..], key);
      assert forall k :: 1 <= k < |table| ==> table[k] == table[1..][k - 1];
      r
  }

  /** `code.replace('r', '')`: every `r` removed. */
  function StripRest(code: string): (s: string)
    ensures 'r' !in s
    ensures forall c :: c in s ==> c in code
    ensures 'r' !in code ==> s == code
  {
    if |code| == 0 then ""
    else
      var last := code[|code| - 1];
      assert code == code[..|code| - 1] + [last];
      StripRest(code[..|code| - 1]) + (if last == 'r' then "" else [last])
  }

  /** `_duration_beats`: strip the rest marker, look the code up, one beat when
      the code is unknown. */
  function DurationBeats(code: string): (b: real)
  {
    match LookupIn(BeatTable, StripRest(code))
    case Some(v) => v
    case None => 1.0
  }

  /** The rest marker does not change a code's length in beats. */
  lemma DurationBeatsIgnoresRest(code: string)
    ensures DurationBeats(code + "r") == DurationBeats(code)
    ensures DurationBeats("r" + code) == DurationBeats(code)
  {
    assert (code + "r")[..|code + "r"| - 1] == code;
    StripRestPrefix(code);
  }

  lemma {:induction false} StripRestPrefix(code: string)
    ensures StripRest("r" + code) == StripRest(code)
    decreases |code|
  {
    if |code| > 0 {
      var rc := "r" + code;
      assert rc[..|rc| - 1] == "r" + code[..|code| - 1];
      StripRestPrefix(code[..|code| - 1]);
    }
  }

  /** No table code contains the rest marker. */
  lemma TableCodeHasNoRest(k: nat)
    requires k < |BeatTable|
    ensures 'r' !in BeatTable[k].0
  {
  }

  /** The table's codes are pairwise distinct. */
  lemma TableCodesDistinct(j: nat, k: nat)
    requires j < k < |BeatTable|
    ensures BeatTable[j].0 != BeatTable[k].0
  {
  }

  /** Each table code, with or without the rest marker, has its table value. */
  lemma DurationBeatsOfCode(k: nat)
    requires k < |BeatTable|
    ensures DurationBeats(BeatTable[k].0) == BeatTable[k].1
    ensures DurationBeats(BeatTable[k].0 + "r") == BeatTable[k].1
  {
    TableCodeHasNoRest(k);
    forall j | 0 <= j < k ensures BeatTable[j].0 != BeatTable[k].0 {
      TableCodesDistinct(j, k);
    }
    DurationBeatsIgnoresRest(BeatTable[k].0);
  }

  /** A code that is not in the table once stripped counts one beat, and every
      code counts one of the table's values. */
  lemma DurationBeatsDefault(code: string)
    ensures (forall k :: 0 <= k < |BeatTable| ==> BeatTable[k].0 != StripRest(code)) ==> DurationBeats(code) == 1.0
    ensures exists k :: 0 <= k < |BeatTable| && DurationBeats(code) == BeatTable[k].1
  {
    if LookupIn(BeatTable, StripRest(code)).None? {
      assert DurationBeats(code) == BeatTable[4].1;
    } else {
      var k :| 0 <= k < |BeatTable| && BeatTable[k].0 == StripRest(code);
      var k0 := FirstKey(BeatTable, StripRest(code), k);
      assert DurationBeats(code) == BeatTable[k0].1;
    }
  }

  /** The first index whose entry carries `key`, given that index `k` carries it. */
  lemma {:induction false} FirstKey(table: seq<(string, real)>, key: string, k: nat) returns (first: nat)
    requires k < |table| && table[k].0 == key
    ensures first <= k && table[first].0 == key
    ensures forall j :: 0 <= j < first ==> table[j].0 != key
    decreases k
  {
    if exists j :: 0 <= j < k && table[j].0 == key {
      var j :| 0 <= j < k && table[j].0 == key;
      first := FirstKey(table, key, j);
    } else {
      first := k;
    }
  }

  /** The entry of `table` whose value is nearest `beats`, scanning in order
      and moving on only to a strictly nearer entry. */
  function NearestEntry(beats: real, table: seq<(string, real)>): (string, real)
    requires |table| > 0
  {
    if |table| == 1 then table[0]
    else
      var best := NearestEntry(beats, table[..|table| - 1]);
      var last := table[|table| - 1];
      if AbsReal(beats - last.1) < AbsReal(beats - best.1) then last else best
  }

  /** Entry `k` is nearest `beats`, and strictly nearer than every earlier entry. */
  ghost predicate FirstNearest(beats: real, table: seq<(string, real)>, k: int)
    requires 0 <= k < |table|
  {
    && (forall j :: 0 <= j < |table| ==> AbsReal(beats - table[k].1) <= AbsReal(beats - table[j].1))
    && (forall j :: 0 <= j < k ==> AbsReal(beats - table[k].1) < AbsReal(beats - table[j].1))
  }

  /** The scan returns the first of the nearest entries. */
  lemma {:induction false} NearestEntryIsFirstNearest(beats: real, table: seq<(string, real)>)
    requires |table| > 0
    ensures exists k :: 0 <= k < |table| && NearestEntry(beats, table) == table[k] && FirstNearest(beats, table, k)
    decreases |table|
  {
    if |table| == 1 {
      assert NearestEntry(beats, table) == table[0] && FirstNearest(beats, table, 0);
    } else {
      var n := |table|;
      var p := table[..n - 1];
      NearestEntryIsFirstNearest(beats, p);
      var kp :| 0 <= kp < |p| && NearestEntry(beats, p) == p[kp] && FirstNearest(beats, p, kp);
      assert p[kp] == table[kp];
      if AbsReal(beats - table[n - 1].1) < AbsReal(beats - table[kp].1) {
        assert NearestEntry(beats, table) == table[n - 1];
        NearerLast(beats, table, kp);
      } else {
        assert NearestEntry(beats, table) == table[kp];
        NotNearerLast(beats, table, kp);
      }
    }
  }

  /** A last entry strictly nearer than the prefix's choice is the first nearest. */
  lemma NearerLast(beats: real, table: seq<(string, real)>, kp: int)
    requires 0 <= kp < |table| - 1 && FirstNearest(beats, table[..|table| - 1], kp)
    requires AbsReal(beats - table[|table| - 1].1) < AbsReal(beats - table[kp].1)
    ensures FirstNearest(beats, table, |table| - 1)
  {
    var n := |table|;
    forall j | 0 <= j < n - 1
      ensures AbsReal(beats - table[n - 1].1) < AbsReal(beats - table[j].1)
    {
      assert table[..n - 1][j] == table[j];
      assert table[..n - 1][kp] == table[kp];
    }
  }

  /** Otherwise the prefix's choice stays the first nearest. */
  lemma NotNearerLast(beats: real, table: seq<(string, real)>, kp: int)
    requires 0 <= kp < |table| - 1 && FirstNearest(beats, table[..|table| - 1], kp)
    requires AbsReal(beats - table[kp].1) <= AbsReal(beats - table[|table| - 1].1)
    ensures FirstNearest(beats, table, kp)
  {
    var n := |table|;
    assert table[..n - 1][kp] == table[kp];
    forall j | 0 <= j < n - 1
      ensures AbsReal(beats - table[kp].1) <= AbsReal(beats - table[j].1)
    {
      assert table[..n - 1][j] == table[j];
    }
    forall j | 0 <= j < kp
      ensures AbsReal(beats - table[kp].1) < AbsReal(beats - table[j].1)
    {
      assert table[..n - 1][j] == table[j];
    }
  }

  /** `quantize_duration`: the code of the table entry nearest the duration
      measured in beats. */
  function QuantizeDuration(seconds: real, tempo: real): string
    requires tempo != 0.0
  {
    NearestEntry(seconds / BeatSeconds(tempo), BeatTable).0
  }

  /** The greedy code is the table code whose beat value is closest to the
      duration in beats; on a tie the earlier table entry wins, because the scan
      only moves on a strictly smaller difference. */
  lemma QuantizeDurationNearest(seconds: real, tempo: real)
    requires tempo != 0.0
    ensures var beats := seconds / BeatSeconds(tempo);
      exists k :: 0 <= k < |BeatTable| && QuantizeDuration(seconds, tempo) == BeatTable[k].0 &&
        (forall j :: 0 <= j < |BeatTable| ==> AbsReal(beats - BeatTable[k].1) <= AbsReal(beats - BeatTable[j].1)) &&
        (forall j :: 0 <= j < k ==> AbsReal(beats - BeatTable[k].1) < AbsReal(beats - BeatTable[j].1))
  {
    NearestEntryIsFirstNearest(seconds / BeatSeconds(tempo), BeatTable);
  }

  // ---------------------------------------------------------------------------
  // Frequency
  // ---------------------------------------------------------------------------

  /** `frequency_to_midi`: `hzToMidi` stands for `int(round(librosa.hz_to_midi(f)))`,
      which is outside this model. */
  function FrequencyToMidi(hzToMidi: real -> int, frequency: real): (m: int)
    ensures frequency <= 0.0 ==> m == 0
  {
    if frequency <= 0.0 then 0 else hzToMidi(frequency)
  }
}
