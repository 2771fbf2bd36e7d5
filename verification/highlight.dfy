/**
 * The highlight persistence state machine: the remembered box, the countdown
 * of frames it stays on screen without a fresh match, and the last target
 * label, updated once per annotated frame.
 */
module Highlight {
  import opened Wrappers
  import opened Matcher
  import Cards
  import Placement

  /** Frames a highlight is kept after its match, counting the frame of the match itself. */
  const PersistFrames: nat := 5

  /** The target label in force before any request has named one. */
  const DefaultTargetCard: string := "Jd"

  /** The three pieces of state, as a value. */
  datatype State = State(lastBox: Option<Box>, framesLeft: nat, lastTarget: string)

  /** The state at start-up: no box, counter zero. */
  const Initial: State := State(None, 0, DefaultTargetCard)

  /** The counter never exceeds PersistFrames. */
  predicate Bounded(s: State) {
    s.framesLeft <= PersistFrames
  }

  /**
   * One frame's transition: record the target; on a match take its box and
   * reload the counter; otherwise count down, never below zero, keeping the box.
   */
  function Next(s: State, results: Results, targetCard: string): (t: State)
    ensures t.lastTarget == targetCard
    ensures Bounded(s) ==> Bounded(t)
    ensures t.framesLeft == 0 ==> s.framesLeft <= 1
  {
    match MatchedBox(Candidates(results), targetCard)
    case Some(b) => State(Some(b), PersistFrames, targetCard)
    case None => State(s.lastBox, if s.framesLeft > 0 then s.framesLeft - 1 else 0, targetCard)
  }

  /** The draw guard, read after the transition: a box is shown while one is stored and the counter is positive. */
  function Shown(s: State): Option<Box> {
    if s.lastBox.Some? && s.framesLeft > 0 then s.lastBox else None
  }

  /** Size of a rendered caption, as the font renderer reports it. */
  datatype TextSize = TextSize(width: nat, height: nat)

  /** What is composited onto the frame: the box, the caption text and the caption's origin. */
  datatype Overlay = Overlay(box: Box, caption: string, textX: int, textY: int)

  /**
   * The overlay drawn for a state, or None when the frame is passed through
   * unchanged. The caption is that of the current target, whichever target
   * the shown box was matched for.
   */
  function Render(s: State, measure: string -> TextSize): (r: Option<Overlay>)
    ensures r.Some? <==> s.lastBox.Some? && s.framesLeft > 0
    ensures r.Some? ==> r.value.box == s.lastBox.value && r.value.caption == Cards.Caption(s.lastTarget)
    ensures r.Some? ==> var size := measure(r.value.caption);
                        && r.value.textX == Placement.TextX(r.value.box.x1, r.value.box.x2, size.width)
                        && r.value.textY == Placement.TextY(r.value.box.y1, r.value.box.y2, size.height)
  {
    match Shown(s)
    case None => None
    case Some(b) =>
      var text := Cards.Caption(s.lastTarget);
      var size := measure(text);
      Some(Overlay(b, text, Placement.TextX(b.x1, b.x2, size.width), Placement.TextY(b.y1, b.y2, size.height)))
  }

  /** The target a request uses: the one it names, or else the last one used. */
  function EffectiveTarget(s: State, requested: Option<string>): string {
    match requested
    case Some(t) => t
    case None => s.lastTarget
  }

  /** One incoming frame: the detector's output and the requested target. */
  datatype Frame = Frame(results: Results, targetCard: string)

  predicate IsMiss(f: Frame) {
    MatchedBox(Candidates(f.results), f.targetCard).None?
  }

  /** The states after each of a run of frames. */
  function Trace(s: State, frames: seq<Frame>): (states: seq<State>)
    ensures |states| == |frames|
    ensures forall i :: 0 <= i < |frames| ==> states[i].lastTarget == frames[i].targetCard
    decreases |frames|
  {
    if frames == [] then []
    else
      var t := Next(s, frames[0].results, frames[0].targetCard);
      [t] + Trace(t, frames[1..])
  }

  /** n - k, floored at zero. */
  function Countdown(n: nat, k: nat): nat {
    if n >= k then n - k else 0
  }

  /**
   * The process-wide highlight state of the service: the three fields that
   * each annotated frame reads and updates.
   */
  class HighlightState {
    var lastBox: Option<Box>
    var framesLeft: nat
    var lastTarget: string

    function Snapshot(): State
      reads this
    {
      State(lastBox, framesLeft, lastTarget)
    }

    ghost predicate Valid()
      reads this
    {
      Bounded(Snapshot())
    }

    constructor ()
      ensures Valid() && Snapshot() == Initial
    {
      lastBox := None;
      framesLeft := 0;
      lastTarget := DefaultTargetCard;
    }

    /**
     * Annotate one frame: record the target, run the matcher over the first
     * result's detections, update the box and the countdown, and decide what
     * to draw. None means the frame is returned as an unchanged copy.
     *
     * The service stores the matched box as a one-shot iterator (a Python
     * `map` object), which the first draw consumes; a later frame that draws
     * without a fresh match would then fail to unpack it. Here the box is a
     * plain value that stays readable, as the code's comments intend; the
     * module AsWritten models the iterator.
     */
    method Annotate(results: Results, targetCard: string, measure: string -> TextSize)
      returns (overlay: Option<Overlay>)
      requires Valid()
      modifies this
      ensures Valid()
      ensures Snapshot() == Next(old(Snapshot()), results, targetCard)
      ensures overlay == Render(Snapshot(), measure)
    {
      var detected := false;
      lastTarget := targetCard;

      if results.Some? && |results.value| > 0 {
        var found := MatchTarget(results.value[0], targetCard);
        if found.Some? {
          lastBox := found;
          framesLeft := PersistFrames;
          detected := true;
        }
      }

      if !detected && framesLeft > 0 {
        framesLeft := framesLeft - 1;
      }

      if lastBox.Some? && framesLeft > 0 {
        var b := lastBox.value;
        var text := Cards.Caption(targetCard);
        var size := measure(text);
        var textX := Placement.TextX(b.x1, b.x2, size.width);
        var textY := Placement.TextY(b.y1, b.y2, size.height);
        overlay := Some(Overlay(b, text, textX, textY));
      } else {
        overlay := None;
      }
    }
  }

  /** A match reloads the counter to PersistFrames whatever it was, and stores the matched box. */
  lemma MatchReloads(s: State, results: Results, targetCard: string, b: Box)
    requires MatchedBox(Candidates(results), targetCard) == Some(b)
    ensures Next(s, results, targetCard) == State(Some(b), PersistFrames, targetCard)
    ensures Shown(Next(s, results, targetCard)) == Some(b)
  {
  }

  /**
   * A miss lowers a positive counter by exactly one and leaves zero at zero;
   * the box is kept, even when the target has changed.
   */
  lemma MissCountsDown(s: State, results: Results, targetCard: string)
    requires MatchedBox(Candidates(results), targetCard) == None
    ensures Next(s, results, targetCard).lastBox == s.lastBox
    ensures Next(s, results, targetCard).framesLeft == Countdown(s.framesLeft, 1)
    ensures Next(s, results, targetCard).lastTarget == targetCard
  {
  }

  /** The counter stays within 0..PersistFrames along any run from a bounded state. */
  lemma {:induction false} TraceBounded(s: State, frames: seq<Frame>)
    requires Bounded(s)
    ensures forall i :: 0 <= i < |frames| ==> Bounded(Trace(s, frames)[i])
    decreases |frames|
  {
    if frames != [] {
      var t := Next(s, frames[0].results, frames[0].targetCard);
      TraceBounded(t, frames[1..]);
    }
  }

  /** After k misses in a row the box is unchanged and the counter has dropped by k, floored at zero. */
  lemma {:induction false} MissTrace(s: State, frames: seq<Frame>)
    requires forall i :: 0 <= i < |frames| ==> IsMiss(frames[i])
    ensures forall i :: 0 <= i < |frames| ==>
              Trace(s, frames)[i] == State(s.lastBox, Countdown(s.framesLeft, i + 1), frames[i].targetCard)
    decreases |frames|
  {
    if frames != [] {
      var t := Next(s, frames[0].results, frames[0].targetCard);
      MissTrace(t, frames[1..]);
      var states := Trace(s, frames);
      assert states == [t] + Trace(t, frames[1..]);
      forall i | 0 <= i < |frames|
        ensures states[i] == State(s.lastBox, Countdown(s.framesLeft, i + 1), frames[i].targetCard)
      {
        if i > 0 {
          assert states[i] == Trace(t, frames[1..])[i - 1];
        }
      }
    }
  }

  /**
   * Persistence: a box matched on the first frame of a run and never matched
   * again is shown on that frame and on the next PersistFrames - 1 frames,
   * and not from the PersistFrames-th miss on. The countdown happens before
   * the draw guard, so the window is the match frame plus four misses.
   */
  lemma PersistenceWindow(s: State, frames: seq<Frame>, b: Box)
    requires |frames| > 0
    requires MatchedBox(Candidates(frames[0].results), frames[0].targetCard) == Some(b)
    requires forall i :: 1 <= i < |frames| ==> IsMiss(frames[i])
    ensures forall i :: 0 <= i < |frames| ==>
              Shown(Trace(s, frames)[i]) == if i < PersistFrames then Some(b) else None
  {
    var t := Next(s, frames[0].results, frames[0].targetCard);
    var rest := frames[1..];
    MissTrace(t, rest);
    var states := Trace(s, frames);
    assert states == [t] + Trace(t, rest);
    forall i | 1 <= i < |frames|
      ensures states[i] == State(Some(b), Countdown(PersistFrames, i), frames[i].targetCard)
    {
      assert states[i] == Trace(t, rest)[i - 1];
      assert rest[i - 1] == frames[i];
    }
  }

  /** From a state with no stored box, a run without matches never shows anything. */
  lemma NothingWithoutMatch(s: State, frames: seq<Frame>, measure: string -> TextSize)
    requires s.lastBox == None
    requires forall i :: 0 <= i < |frames| ==> IsMiss(frames[i])
    ensures forall i :: 0 <= i < |frames| ==> Trace(s, frames)[i].lastBox == None
    ensures forall i :: 0 <= i < |frames| ==> Render(Trace(s, frames)[i], measure) == None
  {
    MissTrace(s, frames);
  }

  /**
   * Switching targets does not clear a box left over from the previous
   * target: on a miss it is still shown while the counter lasts, captioned
   * with the new target.
   */
  lemma StaleBoxTakesNewCaption(s: State, results: Results, targetCard: string, measure: string -> TextSize)
    requires MatchedBox(Candidates(results), targetCard) == None
    requires s.lastBox.Some? && s.framesLeft > 1
    ensures Render(Next(s, results, targetCard), measure).Some?
    ensures Render(Next(s, results, targetCard), measure).value.box == s.lastBox.value
    ensures Render(Next(s, results, targetCard), measure).value.caption == Cards.Caption(targetCard)
  {
  }

  /** The next request without a target of its own uses the one this frame used. */
  lemma DefaultFollowsLastTarget(s: State, results: Results, targetCard: string)
    ensures EffectiveTarget(Next(s, results, targetCard), None) == targetCard
  {
  }

  /**
   * The worked example: "Jd" is detected at (10, 10, 50, 50) with confidence
   * 0.9 on the first frame and not at all on the next six. The counter runs
   * 5, 4, 3, 2, 1, 0, 0; the box is shown on the first five frames only,
   * captioned "Jack of Diamonds".
   */
  lemma JackOfDiamondsRun(measure: string -> TextSize)
    ensures var box := Box(10, 10, 50, 50);
            var hit := Frame(Some([[Detection(box, "Jd", 0.9)]]), "Jd");
            var miss := Frame(Some([]), "Jd");
            var states := Trace(Initial, [hit, miss, miss, miss, miss, miss, miss]);
            && |states| == 7
            && (forall i :: 0 <= i < 7 ==> states[i].framesLeft == Countdown(PersistFrames, i))
            && (forall i :: 0 <= i < 5 ==> Shown(states[i]) == Some(box))
            && Shown(states[5]) == None && Shown(states[6]) == None
            && Render(states[0], measure).Some?
            && Render(states[0], measure).value.caption == "Jack of Diamonds"
  {
    var box := Box(10, 10, 50, 50);
    var hit := Frame(Some([[Detection(box, "Jd", 0.9)]]), "Jd");
    var miss := Frame(Some([]), "Jd");
    var frames := [hit, miss, miss, miss, miss, miss, miss];
    assert FirstMatch(Candidates(hit.results), "Jd") == Some(0);
    PersistenceWindow(Initial, frames, box);
    var states := Trace(Initial, frames);
    assert states == [Next(Initial, hit.results, "Jd")] + Trace(Next(Initial, hit.results, "Jd"), frames[1..]);
    MissTrace(Next(Initial, hit.results, "Jd"), frames[1..]);
    forall i | 1 <= i < 7
      ensures states[i].framesLeft == Countdown(PersistFrames, i)
    {
      assert states[i] == Trace(Next(Initial, hit.results, "Jd"), frames[1..])[i - 1];
    }
    Cards.JackOfDiamonds();
  }
}

