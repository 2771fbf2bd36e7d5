/**
 * The target matcher: picks, from one frame's detections in the detector's
 * own order, the first detection of the target label whose confidence is
 * strictly above the threshold.
 */
module Matcher {
  import opened Wrappers

  /** Confidence a detection must strictly exceed to be accepted. */
  const ConfThreshold: real := 0.1

  /** Pixel corners of a bounding box, (x1, y1) top-left and (x2, y2) bottom-right. */
  datatype Box = Box(x1: int, y1: int, x2: int, y2: int)

  /** One detector output: a box, the class label (already resolved from the class id) and a confidence. */
  datatype Detection = Detection(box: Box, className: string, conf: real)

  /**
   * What the detector hands over for one frame: nothing at all (None), or a
   * list of per-image results of which only the first is read, each a list
   * of detections.
   */
  type Results = Option<seq<seq<Detection>>>

  /** The detections the matcher scans: those of the first result, or none when there is no result. */
  function Candidates(results: Results): seq<Detection> {
    if results.Some? && |results.value| > 0 then results.value[0] else []
  }

  /** A detection qualifies when it carries the target label and beats the threshold strictly. */
  predicate Accepts(d: Detection, target: string) {
    d.className == target && d.conf > ConfThreshold
  }

  /** Index of the first qualifying detection, if any. */
  function FirstMatch(dets: seq<Detection>, target: string): (r: Option<nat>)
    ensures r.Some? ==> r.value < |dets| && Accepts(dets[r.value], target)
    ensures r.Some? ==> forall j :: 0 <= j < r.value ==> !Accepts(dets[j], target)
    ensures r.None? ==> forall j :: 0 <= j < |dets| ==> !Accepts(dets[j], target)
    decreases |dets|
  {
    if |dets| == 0 then None
    else if Accepts(dets[0], target) then Some(0)
    else match FirstMatch(dets[1..], target)
      case None => None
      case Some(k) => Some(k + 1)
  }

  /** The box of the first qualifying detection, if any: what the matcher yields. */
  function MatchedBox(dets: seq<Detection>, target: string): (r: Option<Box>)
    ensures r.None? <==> forall j :: 0 <= j < |dets| ==> !Accepts(dets[j], target)
    ensures r.Some? ==> exists i :: 0 <= i < |dets| && Accepts(dets[i], target)
                                    && r.value == dets[i].box
                                    && forall j :: 0 <= j < i ==> !Accepts(dets[j], target)
  {
    match FirstMatch(dets, target)
    case None => None
    case Some(i) => Some(dets[i].box)
  }

  /**
   * The matcher's scan: walk the detections in order and stop at the first
   * one that qualifies.
   */
  method MatchTarget(dets: seq<Detection>, target: string) returns (found: Option<Box>)
    ensures found.None? <==> forall j :: 0 <= j < |dets| ==> !Accepts(dets[j], target)
    ensures found.Some? ==> exists i :: 0 <= i < |dets| && Accepts(dets[i], target)
                                        && found.value == dets[i].box
                                        && forall j :: 0 <= j < i ==> !Accepts(dets[j], target)
    ensures found == MatchedBox(dets, target)
  {
    found := None;
    var i := 0;
    while i < |dets|
      invariant 0 <= i <= |dets|
      invariant forall j :: 0 <= j < i ==> !Accepts(dets[j], target)
      invariant FirstMatch(dets, target).None? || i <= FirstMatch(dets, target).value
    {
      var d := dets[i];
      if d.className == target && d.conf > ConfThreshold {
        found := Some(d.box);
        break;
      }
      i := i + 1;
    }
  }

  /**
   * Detections after the first qualifying one are never looked at: appending
   * anything, however confident, does not change the match.
   */
  lemma {:induction false} LaterDetectionsIgnored(dets: seq<Detection>, more: seq<Detection>, target: string)
    requires FirstMatch(dets, target).Some?
    ensures FirstMatch(dets + more, target) == FirstMatch(dets, target)
  {
    if !Accepts(dets[0], target) {
      assert (dets + more)[1..] == dets[1..] + more;
      LaterDetectionsIgnored(dets[1..], more, target);
    }
  }

  /**
   * Detections before any qualifying one only shift the match: with no
   * qualifying detection in front, the match is the first one behind.
   */
  lemma {:induction false} EarlierMissesShift(dets: seq<Detection>, more: seq<Detection>, target: string)
    requires FirstMatch(dets, target).None?
    ensures FirstMatch(dets + more, target) ==
            match FirstMatch(more, target)
            case None => None
            case Some(k) => Some(|dets| + k)
  {
    if dets != [] {
      assert (dets + more)[1..] == dets[1..] + more;
      EarlierMissesShift(dets[1..], more, target);
    } else {
      assert dets + more == more;
    }
  }

  /** Of two qualifying detections, the earlier one wins, whatever the confidences. */
  lemma FirstWinsTies(dets: seq<Detection>, target: string, i: nat, j: nat)
    requires i < j < |dets|
    requires Accepts(dets[i], target) && Accepts(dets[j], target)
    ensures FirstMatch(dets, target).Some? && FirstMatch(dets, target).value <= i
  {
  }

  /** The threshold is strict: confidence exactly 0.1 is rejected, anything above it with the right label accepted. */
  lemma ThresholdIsStrict(d: Detection, target: string)
    ensures d.conf == ConfThreshold ==> !Accepts(d, target)
    ensures d.className == target && d.conf > ConfThreshold ==> Accepts(d, target)
    ensures MatchedBox([Detection(d.box, target, ConfThreshold)], target) == None
  {
  }

  /** Absent or empty detector output never yields a match. */
  lemma NoResultsNoMatch(results: Results, target: string)
    requires results == None || results == Some([]) || results == Some([[]])
    ensures MatchedBox(Candidates(results), target) == None
  {
  }

  /** Only the first result is examined. */
  lemma OnlyFirstResultRead(first: seq<Detection>, rest: seq<seq<Detection>>, target: string)
    ensures MatchedBox(Candidates(Some([first] + rest)), target) == MatchedBox(first, target)
  {
  }
}
