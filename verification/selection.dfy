/** The output of beam search (src/pipelines/generation.rs:741-785): each
    item's finished hypotheses sorted by score and the best ones popped,
    then stacked, or padded to a common width when their lengths differ. */
module Selection {

  import opened Basics
  import opened Scores
  import opened Hypotheses
  import opened Sorting

  /** `pop()` repeated `count` times on a list sorted by ascending score:
      the last entries, best first, and `NoHypothesisLeft` when the list
      runs out. What is taken and what is left make up the list. */
  function PopBest(sorted: seq<Hyp>, count: nat): (r: Result<seq<Hyp>>)
    ensures r.Ok? <==> count <= |sorted|
    ensures r.Err? ==> r.failure == NoHypothesisLeft
    ensures r.Ok? ==> |r.value| == count
    ensures r.Ok? ==> forall j :: 0 <= j < count ==> r.value[j] == sorted[|sorted| - 1 - j]
    ensures r.Ok? ==> multiset(r.value) + multiset(sorted[..|sorted| - count]) == multiset(sorted)
  {
    if count > |sorted| then Err(NoHypothesisLeft)
    else
      PoppedSplits(sorted, count);
      Ok(Popped(sorted, count))
  }

  /** The last `count` entries of `sorted`, last first. */
  function Popped(sorted: seq<Hyp>, count: nat): (r: seq<Hyp>)
    requires count <= |sorted|
    ensures |r| == count && forall j :: 0 <= j < count ==> r[j] == sorted[|sorted| - 1 - j]
  {
    seq(count, j requires 0 <= j < count => sorted[|sorted| - 1 - j])
  }

  /** Taking `count` entries from the end leaves the rest in front. */
  lemma {:induction false} PoppedSplits(sorted: seq<Hyp>, count: nat)
    requires count <= |sorted|
    ensures multiset(Popped(sorted, count)) + multiset(sorted[..|sorted| - count]) == multiset(sorted)
    decreases count
  {
    var n := |sorted|;
    if count == 0 {
      assert sorted[..n] == sorted;
    } else {
      PoppedSplits(sorted, count - 1);
      assert Popped(sorted, count) == Popped(sorted, count - 1) + [sorted[n - count]];
      assert sorted[..n - (count - 1)] == sorted[..n - count] + [sorted[n - count]];
    }
  }

  /** What `pop()` leaves behind scores no higher than anything it took. */
  lemma PopBestDominates(sorted: seq<Hyp>, count: nat)
    requires SortedBy(sorted, HypScore) && count <= |sorted|
    ensures PopBest(sorted, count).Ok?
    ensures forall e, j :: e in sorted[..|sorted| - count] && 0 <= j < count ==>
      Le(e.score, PopBest(sorted, count).value[j].score)
  {
    var r := PopBest(sorted, count).value;
    var rest := sorted[..|sorted| - count];
    forall e, j | e in rest && 0 <= j < count
      ensures Le(e.score, r[j].score)
    {
      var i :| 0 <= i < |rest| && rest[i] == e;
      assert sorted[i] == e;
    }
  }

  /** The sort key of `sort_by_key(|(score, _)| OrderedFloat(*score))`. */
  function HypScore(e: Hyp): Score {
    e.score
  }

  /** The `count` best hypotheses of one item, best first: taken from the
      item's list, in non-increasing score order, and no hypothesis left
      behind scores above any of them. */
  function BestOf(h: BeamHypotheses, count: nat): (r: Result<seq<Hyp>>)
    ensures r.Ok? <==> count <= |h.beams|
    ensures r.Err? ==> r.failure == NoHypothesisLeft
    ensures r.Ok? ==> |r.value| == count
    ensures r.Ok? ==> forall i, j :: 0 <= i < j < count ==> Le(r.value[j].score, r.value[i].score)
    ensures r.Ok? ==> exists rest: seq<Hyp> :: multiset(r.value) + multiset(rest) == multiset(h.beams) &&
                        forall e, j :: e in rest && 0 <= j < count ==> Le(e.score, r.value[j].score)
  {
    var sorted := SortBy(h.beams, HypScore);
    match PopBest(sorted, count)
    case Err(f) => Err(f)
    case Ok(best) =>
      BestIsBest(h.beams, sorted, count);
      Ok(best)
  }

  /** The best hypotheses are hypotheses of the item. */
  lemma BestAreHeld(h: BeamHypotheses, count: nat)
    requires count <= |h.beams|
    ensures forall j :: 0 <= j < count ==> BestOf(h, count).value[j] in h.beams
  {
    var best := BestOf(h, count).value;
    var rest: seq<Hyp> :| multiset(best) + multiset(rest) == multiset(h.beams);
    forall j | 0 <= j < count
      ensures best[j] in h.beams
    {
      assert best[j] in multiset(best);
      assert best[j] in multiset(h.beams);
    }
  }

  /** The facts `BestOf` promises, for a sorted copy of the list. */
  lemma BestIsBest(beams: seq<Hyp>, sorted: seq<Hyp>, count: nat)
    requires SortedBy(sorted, HypScore) && multiset(sorted) == multiset(beams) && count <= |sorted|
    ensures PopBest(sorted, count).Ok?
    ensures var best := PopBest(sorted, count).value;
      && (forall i, j :: 0 <= i < j < count ==> Le(best[j].score, best[i].score))
      && exists rest: seq<Hyp> :: multiset(best) + multiset(rest) == multiset(beams) &&
           forall e, j :: e in rest && 0 <= j < count ==> Le(e.score, best[j].score)
  {
    var best := PopBest(sorted, count).value;
    var rest := sorted[..|sorted| - count];
    PopBestDominates(sorted, count);
    forall i, j | 0 <= i < j < count
      ensures Le(best[j].score, best[i].score)
    {
      assert best[j] == sorted[|sorted| - 1 - j] && best[i] == sorted[|sorted| - 1 - i];
    }
    assert multiset(best) + multiset(rest) == multiset(beams);
  }

  /** The token lists of the `per` best hypotheses of every item, best
      first, or `NoHypothesisLeft` when some item holds fewer. */
  function SelectBest(hyps: seq<BeamHypotheses>, per: nat): (r: Result<seq<seq<seq<int>>>>)
    ensures r.Ok? <==> forall b :: 0 <= b < |hyps| ==> per <= |hyps[b].beams|
    ensures r.Err? ==> r.failure == NoHypothesisLeft
    ensures r.Ok? ==> |r.value| == |hyps| && forall b :: 0 <= b < |hyps| ==>
      |r.value[b]| == per && forall j :: 0 <= j < per ==> r.value[b][j] == BestOf(hyps[b], per).value[j].tokens
  {
    if exists b :: 0 <= b < |hyps| && per > |hyps[b].beams| then Err(NoHypothesisLeft)
    else
      Ok(seq(|hyps|, b requires 0 <= b < |hyps| =>
        var best := BestOf(hyps[b], per).value;
        seq(per, j requires 0 <= j < per => best[j].tokens)))
  }

  /** `best_ids`: the groups one after another. */
  function Concat<T>(groups: seq<seq<T>>): (r: seq<T>)
  {
    if |groups| == 0 then [] else Concat(groups[..|groups| - 1]) + groups[|groups| - 1]
  }

  /** With `per` entries per group, entry `j` of group `b` sits at flat
      position `b * per + j`. */
  lemma {:induction false} ConcatIndex<T>(groups: seq<seq<T>>, per: nat)
    requires forall b :: 0 <= b < |groups| ==> |groups[b]| == per
    ensures |Concat(groups)| == |groups| * per
    ensures forall b, j :: 0 <= b < |groups| && 0 <= j < per ==>
      Flat(b, j, per) < |Concat(groups)| && Concat(groups)[Flat(b, j, per)] == groups[b][j]
    decreases |groups|
  {
    if |groups| > 0 {
      var n := |groups| - 1;
      var front := groups[..n];
      ConcatIndex(front, per);
      assert |Concat(groups)| == |groups| * per;
      forall b, j | 0 <= b < |groups| && 0 <= j < per
        ensures Flat(b, j, per) < |Concat(groups)| && Concat(groups)[Flat(b, j, per)] == groups[b][j]
      {
        FlatIndex(b, j, per, |groups|);
        if b < n {
          FlatIndex(b, j, per, n);
          assert front[b] == groups[b];
        }
      }
    }
  }

  // ---------------------------------------------------------------------
  // Padding the outputs

  /** The ways padding fails: a missing padding or end id, an empty end id
      list, a write past the row. */
  predicate PaddingFailure(f: Failure) {
    f == MissingPadOrEos || f == EmptyEosList || f == IndexOutOfRange
  }

  /** One row of the padded output, `width` wide: the hypothesis, then an
      end-of-sequence token when it is shorter than `max_length`, then
      padding. Writing past the width is the out-of-range failure; the end
      token is read as `eos_ids[0]`. */
  function PadRow(row: seq<int>, width: nat, maxLength: nat, pad: int, eos: Option<seq<int>>): (r: Result<seq<int>>)
    ensures r.Err? <==> |row| > width || (|row| < maxLength && (eos.None? || |eos.value| == 0 || |row| == width))
    ensures r.Err? ==> PaddingFailure(r.failure)
    ensures r.Ok? ==> |r.value| == width && r.value[..|row|] == row
    ensures r.Ok? && |row| < maxLength ==> r.value[|row|] == eos.value[0]
    ensures r.Ok? ==> forall t :: |row| + (if |row| < maxLength then 1 else 0) <= t < width ==> r.value[t] == pad
  {
    if |row| > width then Err(IndexOutOfRange)
    else if |row| < maxLength then
      if eos.None? then Err(MissingPadOrEos)
      else if |eos.value| == 0 then Err(EmptyEosList)
      else if |row| == width then Err(IndexOutOfRange)
      else Ok(row + [eos.value[0]] + Repeat(pad, width - |row| - 1))
    else Ok(row + Repeat(pad, width - |row|))
  }

  /** The rows in order; the first row that fails decides the failure. */
  function PadRows(rows: seq<seq<int>>, width: nat, maxLength: nat, pad: int, eos: Option<seq<int>>): (r: Result<seq<seq<int>>>)
    ensures r.Ok? <==> forall i :: 0 <= i < |rows| ==> PadRow(rows[i], width, maxLength, pad, eos).Ok?
    ensures r.Err? ==> PaddingFailure(r.failure)
    ensures r.Ok? ==> |r.value| == |rows| && forall i :: 0 <= i < |rows| ==> r.value[i] == PadRow(rows[i], width, maxLength, pad, eos).value
    decreases |rows|
  {
    if |rows| == 0 then Ok([])
    else
      var n := |rows| - 1;
      match PadRows(rows[..n], width, maxLength, pad, eos)
      case Err(f) =>
        assert forall i :: 0 <= i < n ==> rows[..n][i] == rows[i];
        Err(f)
      case Ok(front) =>
        match PadRow(rows[n], width, maxLength, pad, eos)
        case Err(f) => Err(f)
        case Ok(last) =>
          assert forall i :: 0 <= i < n ==> rows[..n][i] == rows[i];
          Ok(front + [last])
  }

  /** Every row has the length of the first. */
  predicate SameLengths(rows: seq<seq<int>>)
    requires |rows| > 0
  {
    forall i :: 0 <= i < |rows| ==> |rows[i]| == |rows[0]|
  }

  /** The decoded tensor: the rows stacked when their lengths agree;
      otherwise a `pad`-filled matrix one wider than the longest row (at
      most `max_length`) into which each row is copied and, when shorter
      than `max_length`, terminated. A missing padding id is fatal in the
      second case. */
  function PadOutputs(rows: seq<seq<int>>, maxLength: nat, pad: Option<int>, eos: Option<seq<int>>): (r: Result<seq<seq<int>>>)
    requires |rows| > 0
    ensures SameLengths(rows) ==> r == Ok(rows)
    ensures r.Ok? ==> |r.value| == |rows| && Rectangular(r.value, |r.value[0]|)
    ensures r.Ok? ==> forall i :: 0 <= i < |rows| ==> rows[i] <= r.value[i]
    ensures r.Ok? && !SameLengths(rows) ==> pad.Some? && eos.Some?
    ensures r.Ok? && !SameLengths(rows) ==> forall i :: 0 <= i < |rows| && |rows[i]| < maxLength ==>
      eos.Some? && |eos.value| > 0 && |rows[i]| < |r.value[i]| && r.value[i][|rows[i]|] == eos.value[0]
    ensures r.Ok? && !SameLengths(rows) && pad.Some? ==> forall i, t :: 0 <= i < |rows| && |rows[i]| + (if |rows[i]| < maxLength then 1 else 0) <= t < |r.value[i]| ==>
      r.value[i][t] == pad.value
    ensures r.Err? && pad.None? ==> r.failure == MissingPadOrEos
    ensures r.Err? ==> PaddingFailure(r.failure)
  {
    var lengths := seq(|rows|, i requires 0 <= i < |rows| => |rows[i]|);
    var longest := MaxIn(lengths);
    if longest == MinIn(lengths) then
      assert forall i :: 0 <= i < |rows| ==> lengths[i] == |rows[i]|;
      assert rows[..|rows|] == rows;
      Ok(rows)
    else if pad.None? then Err(MissingPadOrEos)
    else
      var width := Min(longest + 1, maxLength);
      match PadRows(rows, width, maxLength, pad.value, eos)
      case Err(f) => Err(f)
      case Ok(padded) =>
        assert forall i :: 0 <= i < |rows| ==> |padded[i]| == width;
        Ok(padded)
  }

  /** The best `per` hypotheses of every item, item by item, padded. */
  function Decoded(hyps: seq<BeamHypotheses>, per: nat, maxLength: nat, pad: Option<int>, eos: Option<seq<int>>)
    : (r: Result<seq<seq<int>>>)
    requires |hyps| > 0 && per > 0
    ensures (forall b :: 0 <= b < |hyps| ==> per <= |hyps[b].beams|) ==> r.Err? ==> r.failure != NoHypothesisLeft
    ensures r.Ok? ==> |r.value| == |hyps| * per && |r.value| > 0 && Rectangular(r.value, |r.value[0]|)
    ensures r.Ok? ==> forall b :: 0 <= b < |hyps| ==> per <= |hyps[b].beams|
    ensures r.Ok? ==> forall b, j :: 0 <= b < |hyps| && 0 <= j < per ==>
      Flat(b, j, per) < |r.value| && BestOf(hyps[b], per).value[j].tokens <= r.value[Flat(b, j, per)]
  {
    match SelectBest(hyps, per)
    case Err(f) => Err(f)
    case Ok(groups) =>
      DecodedFits(hyps, per, groups, maxLength, pad, eos);
      PadOutputs(Concat(groups), maxLength, pad, eos)
  }

  /** The padded rows of the chosen groups: one per hypothesis, each
      beginning with its hypothesis. */
  lemma DecodedFits(hyps: seq<BeamHypotheses>, per: nat, groups: seq<seq<seq<int>>>,
                    maxLength: nat, pad: Option<int>, eos: Option<seq<int>>)
    requires |hyps| > 0 && per > 0 && SelectBest(hyps, per) == Ok(groups)
    ensures |Concat(groups)| == |hyps| * per > 0
    ensures var r := PadOutputs(Concat(groups), maxLength, pad, eos);
      r.Ok? ==> |r.value| == |hyps| * per && Rectangular(r.value, |r.value[0]|)
    ensures var r := PadOutputs(Concat(groups), maxLength, pad, eos);
      r.Ok? ==> forall b, j :: 0 <= b < |hyps| && 0 <= j < per ==>
        Flat(b, j, per) < |r.value| && BestOf(hyps[b], per).value[j].tokens <= r.value[Flat(b, j, per)]
  {
    ConcatIndex(groups, per);
    MulAtLeast(|hyps|, per);
    var r := PadOutputs(Concat(groups), maxLength, pad, eos);
    if r.Ok? {
      GroupsStayInFront(hyps, per, groups, r.value);
    }
  }

  /** Each chosen hypothesis begins the output row at its flat position. */
  lemma GroupsStayInFront(hyps: seq<BeamHypotheses>, per: nat, groups: seq<seq<seq<int>>>, out: seq<seq<int>>)
    requires SelectBest(hyps, per) == Ok(groups)
    requires |out| == |Concat(groups)| && forall i :: 0 <= i < |out| ==> Concat(groups)[i] <= out[i]
    ensures forall b, j :: 0 <= b < |hyps| && 0 <= j < per ==>
      Flat(b, j, per) < |out| && BestOf(hyps[b], per).value[j].tokens <= out[Flat(b, j, per)]
  {
    ConcatIndex(groups, per);
  }
}
