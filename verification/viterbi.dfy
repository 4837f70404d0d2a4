/** `quantize_sequence_viterbi` of `backend/app/utils/music_theory.py`: a dynamic
    programme that picks one grid duration per note so that the whole sequence
    sits well on the 16th-note grid of a measure.

    The state after `i` notes is the position inside the measure, counted in
    16th-note cells modulo the measure length `M`. Choosing grid entry `j` for a
    note of `actual` beats costs `|actual - beats(j)|`, plus 0.05 when the new
    position is not on a quarter beat. The table `dp[i][pos]` of the source is
    `Layer(actuals, M, i)`; each cell keeps its cost and its back pointer. */
module Viterbi {
  import opened Arith
  import opened MusicTheory

  /** `_DURATION_GRID`: the codes in ascending length. */
  const Grid: seq<(string, real)> := [
    ("16", 0.25), ("8", 0.5), ("8d", 0.75), ("q", 1.0),
    ("qd", 1.5), ("h", 2.0), ("hd", 3.0), ("w", 4.0)]

  /** `_GRID_UNIT`: one 16th note, in quarter beats. */
  const GridUnit: real := 0.25

  /** Length of each grid entry in cells: `int(round(dur_beats / _GRID_UNIT))`. */
  const CellTable: seq<nat> := [1, 2, 3, 4, 6, 8, 12, 16]

  /** Cells per quarter beat: `max(1, int(round(1.0 / _GRID_UNIT)))`. */
  const BeatUnit: nat := 4

  /** Grid entry whose code `'q'` the traceback leaves in place when a back
      pointer is missing. */
  const DefaultIndex: nat := 3

  type GridIndex = j: nat | j < 8

  /** The grid is the beat table read backwards, so both name the same codes
      with the same lengths. */
  lemma GridIsBeatTableReversed(j: nat)
    requires j < |Grid|
    ensures Grid[j] == BeatTable[|BeatTable| - 1 - j]
  {
  }

  /** The cell counts and the quarter-beat unit are the rounded quotients the
      source computes. */
  lemma CellTableIsRoundedGrid(j: nat)
    requires j < |Grid|
    ensures CellTable[j] == RoundHalfEven(Grid[j].1 / GridUnit)
    ensures BeatUnit == RoundHalfEven(1.0 / GridUnit)
  {
  }

  /** `max_pos`: cells per measure, `max(1, int(round(beats_per_measure / 0.25)))`. */
  function MaxPos(beatsPerMeasure: real): (m: nat)
    ensures m >= 1
    ensures m == 1 || m == RoundHalfEven(beatsPerMeasure / GridUnit)
    ensures beatsPerMeasure >= GridUnit ==> m == RoundHalfEven(beatsPerMeasure / GridUnit)
  {
    var cells := RoundHalfEven(beatsPerMeasure / GridUnit);
    if cells < 1 then 1 else cells
  }

  /** The 0.05 penalty for a position that is not on a quarter beat. */
  function OffBeat(pos: nat): real
  {
    if pos % BeatUnit != 0 then 0.05 else 0.0
  }

  /** Position reached from `pos` by grid entry `j`. */
  function Target(m: nat, pos: nat, j: GridIndex): (q: nat)
    requires m >= 1
    ensures q < m
  {
    (pos + CellTable[j]) % m
  }

  /** Cost of one transition: quantisation error plus off-beat penalty. */
  function StepCost(actual: real, m: nat, pos: nat, j: GridIndex): real
    requires m >= 1
  {
    AbsReal(actual - Grid[j].1) + OffBeat(Target(m, pos, j))
  }

  /** One cell of `dp`/`back`: unreached (`INF`, `None`) or a cost with the
      position and grid entry it came from. */
  datatype Cell = Unreached | Reached(cost: real, prev: nat, code: GridIndex)

  // ---------------------------------------------------------------------------
  // Reference definitions: what a code sequence costs and where it ends
  // ---------------------------------------------------------------------------

  /** Position after playing `codes` from the start of a measure. */
  function EndPos(codes: seq<GridIndex>, m: nat): (q: nat)
    requires m >= 1
    ensures q < m
  {
    if |codes| == 0 then 0
    else Target(m, EndPos(codes[..|codes| - 1], m), codes[|codes| - 1])
  }

  /** Total cost of choosing `codes` for the first `|codes|` durations, starting
      at position 0. */
  function PathCost(actuals: seq<real>, codes: seq<GridIndex>, m: nat): real
    requires m >= 1 && |codes| <= |actuals|
  {
    if |codes| == 0 then 0.0
    else
      var n := |codes|;
      PathCost(actuals, codes[..n - 1], m) + StepCost(actuals[n - 1], m, EndPos(codes[..n - 1], m), codes[n - 1])
  }

  // ---------------------------------------------------------------------------
  // The dynamic programme
  // ---------------------------------------------------------------------------

  /** `dp[0]`: only position 0 is reached, at cost 0 (its back pointer is never read). */
  function Init(m: nat): (layer: seq<Cell>)
    requires m >= 1
    ensures |layer| == m
    ensures layer[0] == Reached(0.0, 0, 0)
    ensures forall q :: 0 < q < m ==> layer[q].Unreached?
  {
    seq(m, q => if q == 0 then Reached(0.0, 0, 0) else Unreached)
  }

  /** Candidate `u` of the inner double loop is (position `u / 8`, grid entry `u % 8`). */
  function CandPos(u: nat): nat { u / 8 }

  function CandCode(u: nat): GridIndex { u % 8 }

  lemma CandidateOf(m: nat, pos: nat, j: GridIndex)
    requires pos < m
    ensures pos * 8 + j < m * 8
    ensures CandPos(pos * 8 + j) == pos && CandCode(pos * 8 + j) == j
  {
  }

  /** Every reached cell of `next` names a reached cell of `prev` and a grid entry
      that lead to it, and carries exactly the cost of that transition. */
  ghost predicate Backed(prev: seq<Cell>, actual: real, m: nat, next: seq<Cell>)
    requires m >= 1 && |prev| == m
  {
    && |next| == m
    && forall q :: 0 <= q < m && next[q].Reached? ==>
         && next[q].prev < m
         && prev[next[q].prev].Reached?
         && Target(m, next[q].prev, next[q].code) == q
         && next[q].cost == prev[next[q].prev].cost + StepCost(actual, m, next[q].prev, next[q].code)
  }

  /** Every candidate before `t` out of a reached cell has been taken into
      account: its target is reached at a cost no larger than the candidate's. */
  ghost predicate Bounded(prev: seq<Cell>, actual: real, m: nat, next: seq<Cell>, t: nat)
    requires m >= 1 && |prev| == m && |next| == m && t <= m * 8
  {
    forall u :: 0 <= u < t && prev[CandPos(u)].Reached? ==>
      && next[Target(m, CandPos(u), CandCode(u))].Reached?
      && next[Target(m, CandPos(u), CandCode(u))].cost <=
           prev[CandPos(u)].cost + StepCost(actual, m, CandPos(u), CandCode(u))
  }

  /** One relaxation `if cost < dp[i + 1][next_pos]: ...` of candidate `u`. */
  function Relax(prev: seq<Cell>, actual: real, m: nat, acc: seq<Cell>, u: nat): (r: seq<Cell>)
    requires m >= 1 && |prev| == m && |acc| == m && u < m * 8
    ensures |r| == m
    ensures forall q :: 0 <= q < m && acc[q].Reached? ==> r[q].Reached? && r[q].cost <= acc[q].cost
    ensures prev[CandPos(u)].Reached? ==>
      && r[Target(m, CandPos(u), CandCode(u))].Reached?
      && r[Target(m, CandPos(u), CandCode(u))].cost <= prev[CandPos(u)].cost + StepCost(actual, m, CandPos(u), CandCode(u))
    ensures Backed(prev, actual, m, acc) ==> Backed(prev, actual, m, r)
  {
    var pos := CandPos(u);
    var j := CandCode(u);
    if prev[pos].Unreached? then acc
    else
      var q := Target(m, pos, j);
      var cost := prev[pos].cost + StepCost(actual, m, pos, j);
      if acc[q].Unreached? || cost < acc[q].cost then acc[q := Reached(cost, pos, j)] else acc
  }

  /** The first `t` iterations of the double loop over (position, grid entry). */
  function StepUpTo(prev: seq<Cell>, actual: real, m: nat, t: nat): (r: seq<Cell>)
    requires m >= 1 && |prev| == m && t <= m * 8
    ensures Backed(prev, actual, m, r)
    ensures Bounded(prev, actual, m, r, t)
  {
    if t == 0 then seq(m, _ => Unreached)
    else
      var acc := StepUpTo(prev, actual, m, t - 1);
      var r := Relax(prev, actual, m, acc, t - 1);
      assert Bounded(prev, actual, m, r, t) by {
        forall u | 0 <= u < t && prev[CandPos(u)].Reached?
          ensures r[Target(m, CandPos(u), CandCode(u))].Reached?
          ensures r[Target(m, CandPos(u), CandCode(u))].cost <=
                    prev[CandPos(u)].cost + StepCost(actual, m, CandPos(u), CandCode(u))
        {
          if u < t - 1 {
            var q := Target(m, CandPos(u), CandCode(u));
            assert acc[q].Reached?;
          }
        }
      }
      r
  }

  /** `dp[i + 1]` from `dp[i]`: all candidates relaxed. */
  function Step(prev: seq<Cell>, actual: real, m: nat): (r: seq<Cell>)
    requires m >= 1 && |prev| == m
    ensures Backed(prev, actual, m, r)
    ensures Bounded(prev, actual, m, r, m * 8)
  {
    StepUpTo(prev, actual, m, m * 8)
  }

  /** `dp[i]`. */
  function Layer(actuals: seq<real>, m: nat, i: nat): (layer: seq<Cell>)
    requires m >= 1 && i <= |actuals|
    ensures |layer| == m
    ensures forall q :: 0 <= q < m && layer[q].Reached? ==> layer[q].prev < m
  {
    if i == 0 then Init(m) else Step(Layer(actuals, m, i - 1), actuals[i - 1], m)
  }

  /** `np.argmin(dp[n])`: the first reached position of least cost (position 0
      when nothing is reached). */
  function BestEnd(layer: seq<Cell>): (k: nat)
    requires |layer| > 0
    ensures k < |layer|
    ensures (exists q :: 0 <= q < |layer| && layer[q].Reached?) ==> layer[k].Reached?
    ensures layer[k].Reached? ==>
      forall q :: 0 <= q < |layer| && layer[q].Reached? ==> layer[k].cost <= layer[q].cost
    ensures layer[k].Reached? ==>
      forall q :: 0 <= q < k ==> layer[q].Unreached? || layer[k].cost < layer[q].cost
  {
    if |layer| == 1 then 0
    else
      var n := |layer|;
      var k := BestEnd(layer[..n - 1]);
      assert forall q :: 0 <= q < n - 1 ==> layer[..n - 1][q] == layer[q];
      if layer[n - 1].Reached? && (layer[k].Unreached? || layer[n - 1].cost < layer[k].cost) then n - 1 else k
  }

  /** The traceback: follow back pointers from `pos` in `dp[i]`; a missing one
      leaves `'q'` and restarts from position 0, as the source does. */
  function Trace(actuals: seq<real>, m: nat, i: nat, pos: nat): (codes: seq<GridIndex>)
    requires m >= 1 && i <= |actuals| && pos < m
    ensures |codes| == i
    decreases i
  {
    if i == 0 then []
    else
      match Layer(actuals, m, i)[pos]
      case Unreached => Trace(actuals, m, i - 1, 0) + [DefaultIndex]
      case Reached(_, p, j) => Trace(actuals, m, i - 1, p) + [j]
  }

  /** The grid indices the source's traceback produces. */
  function ViterbiIndices(actuals: seq<real>, m: nat): (codes: seq<GridIndex>)
    requires m >= 1
    ensures |codes| == |actuals|
  {
    if |actuals| == 0 then []
    else Trace(actuals, m, |actuals|, BestEnd(Layer(actuals, m, |actuals|)))
  }

  /** `quantize_sequence_viterbi`: one grid code per input duration. */
  function QuantizeSequenceViterbi(durations: seq<real>, beatsPerMeasure: real): (codes: seq<string>)
    ensures |codes| == |durations|
    ensures forall i :: 0 <= i < |codes| ==> exists j :: 0 <= j < |Grid| && codes[i] == Grid[j].0
    ensures |durations| == 0 ==> codes == []
  {
    var idx := ViterbiIndices(durations, MaxPos(beatsPerMeasure));
    var codes := seq(|idx|, i requires 0 <= i < |idx| => Grid[idx[i]].0);
    assert forall i :: 0 <= i < |codes| ==> codes[i] == Grid[idx[i]].0 && 0 <= idx[i] < |Grid|;
    codes
  }

  // ---------------------------------------------------------------------------
  // Correctness of the dynamic programme
  // ---------------------------------------------------------------------------

  /** `dp[|codes|]` at the end position of `codes` is reached, and no dearer than `codes`. */
  lemma {:induction false} LayerBound(actuals: seq<real>, m: nat, codes: seq<GridIndex>)
    requires m >= 1 && |codes| <= |actuals|
    ensures Layer(actuals, m, |codes|)[EndPos(codes, m)].Reached?
    ensures Layer(actuals, m, |codes|)[EndPos(codes, m)].cost <= PathCost(actuals, codes, m)
    decreases |codes|
  {
    if |codes| > 0 {
      var n := |codes|;
      var front := codes[..n - 1];
      var j := codes[n - 1];
      var p := EndPos(front, m);
      LayerBound(actuals, m, front);
      StepBound(Layer(actuals, m, n - 1), actuals[n - 1], m, p, j);
    }
  }

  /** A step reaches the target of every transition out of a reached cell, no
      dearer than that transition. */
  lemma StepBound(prev: seq<Cell>, actual: real, m: nat, p: nat, j: GridIndex)
    requires m >= 1 && |prev| == m && p < m && prev[p].Reached?
    ensures Step(prev, actual, m)[Target(m, p, j)].Reached?
    ensures Step(prev, actual, m)[Target(m, p, j)].cost <= prev[p].cost + StepCost(actual, m, p, j)
  {
    CandidateOf(m, p, j);
    var u := p * 8 + j;
    assert prev[CandPos(u)].Reached?;
  }

  /** Following back pointers from a reached cell yields a code sequence that
      ends there and costs exactly the cell's cost. */
  lemma {:induction false} TraceCorrect(actuals: seq<real>, m: nat, i: nat, pos: nat)
    requires m >= 1 && i <= |actuals| && pos < m
    requires Layer(actuals, m, i)[pos].Reached?
    ensures EndPos(Trace(actuals, m, i, pos), m) == pos
    ensures PathCost(actuals, Trace(actuals, m, i, pos), m) == Layer(actuals, m, i)[pos].cost
    decreases i
  {
    if i > 0 {
      var cell := Layer(actuals, m, i)[pos];
      var p, j := cell.prev, cell.code;
      var prev := Layer(actuals, m, i - 1);
      assert Backed(prev, actuals[i - 1], m, Layer(actuals, m, i));
      TraceCorrect(actuals, m, i - 1, p);
      var codes := Trace(actuals, m, i, pos);
      assert codes == Trace(actuals, m, i - 1, p) + [j];
      assert codes[..i - 1] == Trace(actuals, m, i - 1, p);
    }
  }

  /** Some position of the last layer is reached, so the traceback starts from a
      reached cell. */
  lemma LastLayerReached(actuals: seq<real>, m: nat)
    requires m >= 1 && |actuals| > 0
    ensures Layer(actuals, m, |actuals|)[BestEnd(Layer(actuals, m, |actuals|))].Reached?
  {
    var zeros := seq(|actuals|, _ => 0 as GridIndex);
    LayerBound(actuals, m, zeros);
  }

  /** Optimality: no code sequence of the same length, started at position 0,
      costs less than the one the quantiser returns. */
  lemma ViterbiOptimal(actuals: seq<real>, m: nat, other: seq<GridIndex>)
    requires m >= 1 && |other| == |actuals|
    ensures PathCost(actuals, ViterbiIndices(actuals, m), m) <= PathCost(actuals, other, m)
  {
    if |actuals| > 0 {
      var n := |actuals|;
      var last := Layer(actuals, m, n);
      var best := BestEnd(last);
      LastLayerReached(actuals, m);
      TraceCorrect(actuals, m, n, best);
      LayerBound(actuals, m, other);
    }
  }

  /** Tie-breaking at the end: every code sequence that ends strictly earlier in
      the measure than the returned one costs strictly more, so among optimal
      endings the lowest position (a clean bar line first of all) wins. */
  lemma ViterbiPrefersEarliestEnd(actuals: seq<real>, m: nat, other: seq<GridIndex>)
    requires m >= 1 && |other| == |actuals|
    requires EndPos(other, m) < EndPos(ViterbiIndices(actuals, m), m)
    ensures PathCost(actuals, ViterbiIndices(actuals, m), m) < PathCost(actuals, other, m)
  {
    var n := |actuals|;
    var last := Layer(actuals, m, n);
    var best := BestEnd(last);
    LastLayerReached(actuals, m);
    TraceCorrect(actuals, m, n, best);
    LayerBound(actuals, m, other);
  }

  /** For the string codes the source returns, at the measure length it derives
      from `beats_per_measure`: they name a grid path no other path undercuts. */
  lemma QuantizeSequenceViterbiOptimal(durations: seq<real>, beatsPerMeasure: real, other: seq<GridIndex>)
    requires |other| == |durations|
    ensures var codes := QuantizeSequenceViterbi(durations, beatsPerMeasure);
      exists chosen: seq<GridIndex> ::
        && |chosen| == |codes|
        && (forall i :: 0 <= i < |codes| ==> codes[i] == Grid[chosen[i]].0)
        && PathCost(durations, chosen, MaxPos(beatsPerMeasure)) <= PathCost(durations, other, MaxPos(beatsPerMeasure))
  {
    var chosen := ViterbiIndices(durations, MaxPos(beatsPerMeasure));
    ViterbiOptimal(durations, MaxPos(beatsPerMeasure), other);
    var codes := QuantizeSequenceViterbi(durations, beatsPerMeasure);
    assert forall i :: 0 <= i < |codes| ==> codes[i] == Grid[chosen[i]].0;
  }
}
