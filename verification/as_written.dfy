/**
 * The transition as the service writes it, where the matched box is kept as
 * a one-shot iterator over its four coordinates (a Python `map` object).
 * Such an object is always truthy, so the draw guard lets it through, but
 * once the first draw has unpacked it there is nothing left to unpack.
 * Compare Highlight, which keeps the box as a value.
 */
module AsWritten {
  import opened Wrappers
  import opened Matcher
  import Highlight

  /** The stored box: none yet, or an iterator over a box that may already have been read. */
  datatype StoredBox = NoBox | OneShot(box: Box, consumed: bool)

  datatype PyState = PyState(lastBox: StoredBox, framesLeft: nat, lastTarget: string)

  /** How annotating one frame ends: frame returned as is, box drawn, or the unpack of an exhausted iterator raises. */
  datatype Outcome = PassThrough | Drawn(box: Box) | UnpackError

  const Initial: PyState := PyState(NoBox, 0, Highlight.DefaultTargetCard)

  /** The stored box read as a value, forgetting whether it was consumed. */
  function AsValue(s: PyState): Highlight.State {
    Highlight.State(if s.lastBox.OneShot? then Some(s.lastBox.box) else None, s.framesLeft, s.lastTarget)
  }

  /**
   * One frame as written. The updates to the globals made before the unpack
   * stay in effect when it raises. Counter, target and stored box evolve
   * exactly as in the value model, and whenever the value model shows a box
   * the code as written either draws that box (fresh iterator) or raises
   * (exhausted iterator): the iterator is the only difference.
   */
  function Step(s: PyState, results: Results, targetCard: string): (r: (PyState, Outcome))
    ensures AsValue(r.0) == Highlight.Next(AsValue(s), results, targetCard)
    ensures var shown := Highlight.Shown(AsValue(r.0));
            match r.1
            case PassThrough => shown == None
            case Drawn(b) => shown == Some(b)
            case UnpackError => shown.Some?
  {
    var t := match MatchedBox(Candidates(results), targetCard)
      case Some(b) => PyState(OneShot(b, false), Highlight.PersistFrames, targetCard)
      case None => PyState(s.lastBox, if s.framesLeft > 0 then s.framesLeft - 1 else 0, targetCard);
    if t.lastBox.OneShot? && t.framesLeft > 0 then
      if t.lastBox.consumed then (t, UnpackError)
      else (t.(lastBox := OneShot(t.lastBox.box, true)), Drawn(t.lastBox.box))
    else (t, PassThrough)
  }

  /**
   * The discrepancy: after a frame that matches, the next frame without a
   * match raises instead of showing the kept box, though the value model
   * (and the intent stated beside the countdown) shows it.
   */
  lemma OneShotBoxFailsOnNextMiss(s: PyState, hit: Results, miss: Results, targetCard: string, b: Box)
    requires MatchedBox(Candidates(hit), targetCard) == Some(b)
    requires MatchedBox(Candidates(miss), targetCard) == None
    ensures var (s1, first) := Step(s, hit, targetCard);
            && first == Drawn(b)
            && Step(s1, miss, targetCard).1 == UnpackError
            && Highlight.Shown(Highlight.Next(AsValue(s1), miss, targetCard)) == Some(b)
  {
  }

  /** The concrete input: "Jd" found at (10, 10, 50, 50) on one frame, an empty detection list on the next. */
  lemma SecondFrameRaises()
    ensures var box := Box(10, 10, 50, 50);
            var (s1, first) := Step(Initial, Some([[Detection(box, "Jd", 0.9)]]), "Jd");
            first == Drawn(box) && Step(s1, Some([]), "Jd").1 == UnpackError
  {
    var box := Box(10, 10, 50, 50);
    assert FirstMatch(Candidates(Some([[Detection(box, "Jd", 0.9)]])), "Jd") == Some(0);
  }
}
