/** `combine_midis`: decoded scores appended one after another to an empty stream. */
module Combiner {
  import opened Music

  /** The length of the scores laid end to end: where the next one would start. */
  function TotalExtent(inputs: seq<Score>): real {
    if inputs == [] then 0.0
    else TotalExtent(inputs[..|inputs| - 1]) + Extent(inputs[|inputs| - 1])
  }

  /** The entries of the combined stream after appending each score, in list order. */
  function Combine(inputs: seq<Score>): seq<Placed> {
    if inputs == [] then []
    else AppendAtEnd(Combine(inputs[..|inputs| - 1]), Part(inputs[|inputs| - 1]))
  }

  /** The events of the scores, each score's moved to start where the earlier ones end. */
  function Layout(inputs: seq<Score>): seq<Element> {
    if inputs == [] then []
    else Layout(inputs[..|inputs| - 1]) + Shift(inputs[|inputs| - 1].elements, TotalExtent(inputs[..|inputs| - 1]))
  }

  /** The metronome marks of the scores, in list order, each score's moved like its events. */
  function AllMarks(inputs: seq<Score>): seq<Mark> {
    if inputs == [] then []
    else AllMarks(inputs[..|inputs| - 1]) + ShiftMarks(inputs[|inputs| - 1].marks, TotalExtent(inputs[..|inputs| - 1]))
  }

  /** `combine_midis` from the decoded scores on: an empty stream, and each score
      appended to it in list order. */
  method CombineMidis(inputs: seq<Score>) returns (combined: MusicStream)
    ensures fresh(combined) && combined.Valid()
    ensures combined.entries == Combine(inputs)
  {
    combined := new MusicStream();
    var i := 0;
    while i < |inputs|
      invariant 0 <= i <= |inputs|
      invariant combined.Valid()
      invariant combined.entries == Combine(inputs[..i])
    {
      combined.Append(Part(inputs[i]));
      CombineUnfold(inputs, i);
      i := i + 1;
    }
    assert inputs[..i] == inputs;
  }

  lemma CombineUnfold(inputs: seq<Score>, i: int)
    requires 0 <= i < |inputs|
    ensures Combine(inputs[..i + 1]) == AppendAtEnd(Combine(inputs[..i]), Part(inputs[i]))
  {
    assert inputs[..i + 1][..i] == inputs[..i];
  }

  ghost predicate AllWellTimed(inputs: seq<Score>) {
    forall k :: 0 <= k < |inputs| ==> WellTimed(inputs[k])
  }

  /** Laid end to end, well-timed scores never take up negative time. */
  lemma {:induction false} TotalExtentNonNegative(inputs: seq<Score>)
    requires AllWellTimed(inputs)
    ensures 0.0 <= TotalExtent(inputs)
    decreases |inputs|
  {
    if inputs != [] {
      var n := |inputs| - 1;
      assert AllWellTimed(inputs[..n]);
      TotalExtentNonNegative(inputs[..n]);
      ExtentBounds(inputs[n]);
    }
  }

  lemma TotalExtentStep(inputs: seq<Score>, b: int)
    requires 0 < b <= |inputs|
    ensures TotalExtent(inputs[..b]) == TotalExtent(inputs[..b - 1]) + Extent(inputs[b - 1])
  {
    assert inputs[..b][..b - 1] == inputs[..b - 1];
  }

  /** Start positions grow along the list. */
  lemma {:induction false} TotalExtentGrows(inputs: seq<Score>, a: int, b: int)
    requires AllWellTimed(inputs)
    requires 0 <= a <= b <= |inputs|
    ensures 0.0 <= TotalExtent(inputs[..a]) <= TotalExtent(inputs[..b])
    decreases b
  {
    if a < b {
      TotalExtentGrows(inputs, a, b - 1);
      TotalExtentStep(inputs, b);
      ExtentBounds(inputs[b - 1]);
    } else {
      assert AllWellTimed(inputs[..a]);
      TotalExtentNonNegative(inputs[..a]);
    }
  }

  /** Appending one more well-timed score adds one sub-stream at the back, at the
      combined stream's end. */
  lemma CombineStep(inputs: seq<Score>)
    requires inputs != []
    requires var init := inputs[..|inputs| - 1];
      NonNegativeLengths(Combine(init)) && HighestTime(Combine(init)) == TotalExtent(init)
    ensures var init := inputs[..|inputs| - 1];
      Combine(inputs) == Combine(init) + [Placed(TotalExtent(init), Part(inputs[|inputs| - 1]))]
  {
    var init := inputs[..|inputs| - 1];
    AppendIsAtBack(Combine(init), Part(inputs[|inputs| - 1]));
  }

  /** Each score lands as one sub-stream behind all earlier ones: score k sits at the
      total extent of scores 0..k-1, the entries stay in list order, and the combined
      stream ends where the last score ends. */
  lemma {:induction false} CombineLayout(inputs: seq<Score>)
    requires AllWellTimed(inputs)
    ensures |Combine(inputs)| == |inputs|
    ensures forall k :: 0 <= k < |inputs| ==> Combine(inputs)[k] == Placed(TotalExtent(inputs[..k]), Part(inputs[k]))
    ensures HighestTime(Combine(inputs)) == TotalExtent(inputs)
    ensures NonNegativeLengths(Combine(inputs))
    decreases |inputs|
  {
    if inputs != [] {
      var n := |inputs| - 1;
      var init, last := inputs[..n], inputs[n];
      assert AllWellTimed(init);
      CombineLayout(init);
      CombineStep(inputs);
      LayoutStep(inputs, Combine(init), Combine(inputs));
    }
  }

  /** The layout facts carry over from the stream of the earlier scores to the stream
      with one more score at the back. */
  lemma LayoutStep(inputs: seq<Score>, c': seq<Placed>, c: seq<Placed>)
    requires AllWellTimed(inputs) && inputs != []
    requires var init := inputs[..|inputs| - 1];
      && c == c' + [Placed(TotalExtent(init), Part(inputs[|inputs| - 1]))]
      && |c'| == |init|
      && (forall k :: 0 <= k < |init| ==> c'[k] == Placed(TotalExtent(init[..k]), Part(init[k])))
      && HighestTime(c') == TotalExtent(init)
      && NonNegativeLengths(c')
    ensures |c| == |inputs|
    ensures forall k :: 0 <= k < |inputs| ==> c[k] == Placed(TotalExtent(inputs[..k]), Part(inputs[k]))
    ensures HighestTime(c) == TotalExtent(inputs)
    ensures NonNegativeLengths(c)
  {
    var n := |inputs| - 1;
    var init, last := inputs[..n], inputs[n];
    var p := Placed(TotalExtent(init), Part(last));
    ExtentBounds(last);
    EndStep(inputs, c', p);
    NonNegativeSnoc(c', p);
    LayoutSnoc(inputs, c');
  }

  /** The stream with one more score at the back ends where the scores laid end to end end. */
  lemma EndStep(inputs: seq<Score>, c': seq<Placed>, p: Placed)
    requires AllWellTimed(inputs) && inputs != []
    requires var init := inputs[..|inputs| - 1];
      && p == Placed(TotalExtent(init), Part(inputs[|inputs| - 1]))
      && HighestTime(c') == TotalExtent(init)
    ensures HighestTime(c' + [p]) == TotalExtent(inputs)
  {
    var n := |inputs| - 1;
    var init, last := inputs[..n], inputs[n];
    assert AllWellTimed(init);
    ExtentBounds(last);
    TotalExtentNonNegative(init);
    HighestTimeSnoc(c', p);
    assert TotalExtent(inputs) == TotalExtent(init) + Extent(last);
  }

  lemma NonNegativeSnoc(c: seq<Placed>, p: Placed)
    requires NonNegativeLengths(c) && 0.0 <= Length(p.item)
    ensures NonNegativeLengths(c + [p])
  {
  }

  /** The positions of the earlier scores do not move when one more is appended. */
  lemma LayoutSnoc(inputs: seq<Score>, c': seq<Placed>)
    requires inputs != []
    requires |c'| == |inputs| - 1
    requires forall k :: 0 <= k < |c'| ==> c'[k] == Placed(TotalExtent(inputs[..|c'|][..k]), Part(inputs[..|c'|][k]))
    ensures var c := c' + [Placed(TotalExtent(inputs[..|c'|]), Part(inputs[|c'|]))];
      forall k :: 0 <= k < |inputs| ==> c[k] == Placed(TotalExtent(inputs[..k]), Part(inputs[k]))
  {
    var n := |c'|;
    var c := c' + [Placed(TotalExtent(inputs[..n]), Part(inputs[n]))];
    forall k | 0 <= k < |inputs|
      ensures c[k] == Placed(TotalExtent(inputs[..k]), Part(inputs[k]))
    {
      if k < n {
        assert inputs[..n][..k] == inputs[..k];
        assert inputs[..n][k] == inputs[k];
        assert c[k] == c'[k];
      } else {
        assert c[k] == Placed(TotalExtent(inputs[..n]), Part(inputs[n]));
      }
    }
  }

  /** For well-timed scores, appending one more adds one sub-stream at the back. */
  lemma CombineSnoc(inputs: seq<Score>)
    requires AllWellTimed(inputs) && inputs != []
    ensures var init := inputs[..|inputs| - 1];
      Combine(inputs) == Combine(init) + [Placed(TotalExtent(init), Part(inputs[|inputs| - 1]))]
  {
    var init := inputs[..|inputs| - 1];
    assert AllWellTimed(init);
    CombineLayout(init);
    CombineStep(inputs);
  }

  /** The combined stream's flat view: every score's events in list order, each score
      moved as a block (same order, same gaps) to start where the earlier scores end. */
  lemma {:induction false} CombineTimeline(inputs: seq<Score>)
    requires AllWellTimed(inputs)
    ensures Timeline(Combine(inputs)) == Layout(inputs)
    decreases |inputs|
  {
    if inputs != [] {
      var n := |inputs| - 1;
      var init := inputs[..n];
      assert AllWellTimed(init);
      CombineTimeline(init);
      CombineSnoc(inputs);
      TimelineStep(inputs, Combine(init), Combine(inputs));
    }
  }

  /** One more score at the back of the stream adds its events, moved, to the flat view. */
  lemma TimelineStep(inputs: seq<Score>, c': seq<Placed>, c: seq<Placed>)
    requires inputs != []
    requires var init := inputs[..|inputs| - 1];
      && c == c' + [Placed(TotalExtent(init), Part(inputs[|inputs| - 1]))]
      && Timeline(c') == Layout(init)
    ensures Timeline(c) == Layout(inputs)
  {
    assert c[..|c'|] == c';
  }

  /** One more score at the back of the stream adds its marks, moved, to the stream's marks. */
  lemma MarksStep(inputs: seq<Score>, c': seq<Placed>, c: seq<Placed>)
    requires inputs != []
    requires var init := inputs[..|inputs| - 1];
      && c == c' + [Placed(TotalExtent(init), Part(inputs[|inputs| - 1]))]
      && MarksOf(c') == AllMarks(init)
    ensures MarksOf(c) == AllMarks(inputs)
  {
    assert c[..|c'|] == c';
  }

  /** The combined stream's metronome marks are those of the scores, in list order, each
      moved with its score to where the earlier scores end. */
  lemma {:induction false} CombineMarks(inputs: seq<Score>)
    requires AllWellTimed(inputs)
    ensures MarksOf(Combine(inputs)) == AllMarks(inputs)
    decreases |inputs|
  {
    if inputs != [] {
      var n := |inputs| - 1;
      var init := inputs[..n];
      assert AllWellTimed(init);
      CombineMarks(init);
      CombineSnoc(inputs);
      MarksStep(inputs, Combine(init), Combine(inputs));
    }
  }

  /** Every event of an earlier score ends no later than any event of a later score
      starts, on the combined timeline. */
  lemma CombineSeparated(inputs: seq<Score>, j: int, k: int, x: int, y: int)
    requires AllWellTimed(inputs)
    requires 0 <= j < k < |inputs|
    requires 0 <= x < |inputs[j].elements| && 0 <= y < |inputs[k].elements|
    ensures TotalExtent(inputs[..j]) + End(inputs[j].elements[x]) <= TotalExtent(inputs[..k]) + inputs[k].elements[y].offset
  {
    ExtentBounds(inputs[j]);
    TotalExtentGrows(inputs, j + 1, k);
    assert inputs[..j + 1][..j] == inputs[..j];
  }
}
