# Card highlight persistence, modelled in Dafny

The service annotates video frames of playing cards. For each uploaded frame an
object detector returns boxes, class labels and confidences; the service picks
the first detection of the requested card, remembers its box, and keeps drawing
that box for a few more frames when the detector misses the card, so that the
highlight does not flicker. This project models that core: the target matcher,
the three-variable highlight state (`last_box`, `highlight_frames_left`,
`last_target_card`) and its per-frame transition, the draw guard, the caption
text lookup and the caption placement arithmetic.

Files:

- `wrappers.dfy` — `Option`.
- `matcher.dfy` — module `Matcher`: detections, the threshold `ConfThreshold`
  (0.1), the specification `FirstMatch`, and the scanning loop `MatchTarget`.
- `highlight.dfy` — module `Highlight`: the state as a value (`State`), the
  transition `Next`, the draw guard `Shown`, the overlay `Render`, runs of
  frames (`Trace`), and the class `HighlightState`, whose method `Annotate` is
  the per-frame update proved against `Next` and `Render`.
- `cards.dfy` — module `Cards`: the 52-entry card table and `Caption`, the
  lookup with fallback to the raw code.
- `placement.dfy` — module `Placement`: caption origin `TextX` / `TextY`.
- `as_written.dfy` — module `AsWritten`: the transition with the box stored as
  a one-shot iterator, as the code writes it (see Findings).

The draw decision is read after the countdown. So a box is drawn on the frame
that matched it and on the next `PERSIST_FRAMES - 1` = 4 missed frames, and not
on the fifth miss. In a run of one hit followed by six misses the counter goes
5, 4, 3, 2, 1, 0, 0 and the box is drawn on frames 1 to 5 only
(`Highlight.PersistenceWindow`, `Highlight.JackOfDiamondsRun`).

Boxes are not clamped to the frame: the code does not clamp them, so neither
does the model.

## Model

| member | source | states |
|---|---|---|
| `Matcher.FirstMatch` | app.py:59-67 | the index returned is of a detection with the target label and confidence strictly above 0.1, and no earlier detection qualifies; none is returned only when no detection qualifies |
| `Matcher.MatchedBox` | app.py:59-67 | no box iff no detection qualifies; otherwise the box of a qualifying detection with no qualifying detection before it |
| `Matcher.MatchTarget` | app.py:58-67 | the loop with `break` yields no box iff no detection qualifies, and otherwise the box of the first qualifying detection; it equals the box of `FirstMatch` |
| `Matcher.LaterDetectionsIgnored` | app.py:63-67 | once a qualifying detection is found, appending more detections, however confident, does not change the match |
| `Matcher.EarlierMissesShift` | app.py:59-67 | non-qualifying detections in front of a list only shift the index of its first match |
| `Matcher.FirstWinsTies` | app.py:63-67 | of two qualifying detections, the earlier wins regardless of confidence |
| `Matcher.ThresholdIsStrict` | app.py:63 | confidence exactly 0.1 is rejected; a matching label with confidence above 0.1 is accepted |
| `Matcher.NoResultsNoMatch` | app.py:58 | no results, an empty list of results, or an empty detection list yield no match and no error |
| `Matcher.OnlyFirstResultRead` | app.py:59 | results after the first never affect the match |
| `Highlight.Next` | app.py:56-71 | the target is recorded on every frame; the counter stays within 0..5 if it was; it reaches 0 only from 1 or 0 |
| `Highlight.Render` | app.py:74-101 | an overlay is produced iff a box is stored and the counter is positive after the update; it uses the stored box, the caption of the current target, and the caption origin `Placement.TextX` / `Placement.TextY` of that box and the measured caption size |
| `Highlight.Trace` | app.py:50-71 | one state per frame, each recording that frame's target |
| `Highlight.HighlightState.constructor` | app.py:45-47 | start-up state: no box, counter 0, target "Jd" |
| `Highlight.HighlightState.Annotate` | app.py:50-104 | the fields after the call are `Next` of the fields before it, the counter bound is kept, and the overlay returned is `Render` of the new state (none means the frame is returned unchanged) |
| `Highlight.MatchReloads` | app.py:63-66 | a match stores its box and sets the counter to 5 whatever it was, and is drawn on that frame |
| `Highlight.MissCountsDown` | app.py:69-71 | a miss lowers a positive counter by exactly one, leaves 0 at 0, keeps the box and records the new target |
| `Highlight.TraceBounded` | app.py:65-71 | along any run the counter stays within 0..5 |
| `Highlight.MissTrace` | app.py:69-71 | after k consecutive misses the box is unchanged and the counter is the old value minus k, floored at 0 |
| `Highlight.PersistenceWindow` | app.py:63-74 | a box matched at frame N and never again is shown on frames N..N+4 and not from N+5 on |
| `Highlight.NothingWithoutMatch` | app.py:45-74 | from a state with no box, a run without matches never stores a box and never draws |
| `Highlight.StaleBoxTakesNewCaption` | app.py:69-90 | switching targets neither clears the box nor the counter; the old box is drawn under the new target's caption |
| `Highlight.DefaultFollowsLastTarget` | app.py:113 | a request without a target uses the target of the previous frame |
| `Highlight.JackOfDiamondsRun` | app.py:50-95 | one hit of "Jd" at (10,10,50,50) then six misses: counter 5,4,3,2,1,0,0, drawn on the first five frames, captioned "Jack of Diamonds" |
| `Cards.Caption` | app.py:90 | a card code (rank code then suit letter) is captioned "<Rank> of <Suit>"; any other code is captioned with itself |
| `Cards.CardKeys` | app.py:28-42 | a code is a key of the table exactly when it is a rank code followed by a suit letter |
| `Cards.CardCaption` | app.py:28-42 | each of the 13 ranks times 4 suits is in the table and is captioned "<Rank> of <Suit>" |
| `Cards.KeysAreCardCodes` | app.py:28-42 | the table holds nothing but rank-plus-suit codes |
| `Cards.CardCodesAreKeys` | app.py:28-42 | every rank-plus-suit code is in the table |
| `Cards.JackOfDiamonds` | app.py:39 | the default target "Jd" is captioned "Jack of Diamonds" |
| `Cards.UnknownLabel` | app.py:90 | an unknown label such as "joker" is captioned with itself |
| `Placement.TruncateToInt` | app.py:92 | Python `int()` on a float truncates toward zero |
| `Placement.TextX` | app.py:92 | the caption is centred over the box: the gaps left and right of it differ by at most one pixel, with the half pixel rounded toward zero |
| `Placement.TextXIsHalfTowardZero` | app.py:92 | the float formula equals halving x1 + x2 - text width with truncation toward zero |
| `Placement.TextY` | app.py:93-95 | the caption sits 10 px above the box when its top then stays in the frame; otherwise its top is 10 px below the box |
| `Placement.CaptionTopInFrame` | app.py:93-95 | if the box bottom is at most 10 px above the frame, the caption's top is inside the frame |
| `AsWritten.Step` | app.py:56-75 | the transition with the box kept as an iterator: counter, target and box evolve as in `Highlight.Next`; the frame passes through when `Highlight.Shown` gives nothing, and otherwise draws that box or raises; the iterator is the only difference |
| `AsWritten.OneShotBoxFailsOnNextMiss` | app.py:64-75 | after a matching frame, the next frame without a match raises, where the value model shows the kept box |
| `AsWritten.SecondFrameRaises` | app.py:64-75 | "Jd" found on one frame and an empty detection list on the next: the second frame raises |

## Findings

| source | as written | input that shows it | evidently intended | confidence | as-written member | corrected member |
|---|---|---|---|---|---|---|
| app.py:64 | `last_box = map(int, box)` stores a one-shot iterator. The unpack at app.py:75 consumes it on the match frame. The next frame without a match passes the guard at app.py:74, because a `map` object is always truthy, and then the unpack raises `ValueError` | frame 1: a "Jd" detection at (10,10,50,50) with confidence 0.9; frame 2: no detections; target "Jd" on both | keep drawing the stored box while the counter is positive (comments at app.py:17 and app.py:69) | high; not executed | `AsWritten.SecondFrameRaises` | `Highlight.PersistenceWindow` |

## Left out

- HTTP layer (routes, form and file parsing, `send_file`, `app.run`): I/O glue. Only the default-target rule of the frame route is modelled (`Highlight.EffectiveTarget`).
- The detector: detections are an input. The class-id to name lookup is taken as already resolved to a label.
- All image work: frame copies, filled and outlined rectangles, alpha blending with weights 0.15 / 0.25 / 0.4, text rendering, JPEG decode and encode. These are floating-point pixel operations in a library not modelled here. `Render` returns what would be composited (box, caption, caption origin), or None for a frame returned unchanged.
- `cv2.getTextSize` is an input: `Annotate` and `Render` take a `measure` function from caption text to text size.
- The float-to-int conversion of detector boxes: boxes are integers.
- `display_name`, computed and never used.
- Concurrency: the service runs threaded and shares the globals unsynchronised. `HighlightState.Annotate` models one call at a time on one state object.
- Placement.TextX: Python computes the centre with a double-precision float. The model uses exact reals, which agree for coordinates below 2^52.
- Cards.CardCaption: the table is built from the 13 rank codes and 4 suit letters with their names, not listed entry by entry. It has the same 52 entries, and `Cards.JackOfDiamonds` states one of them as a literal string.
- Matcher.ThresholdIsStrict: confidences are exact reals. The detector's confidences are float32 values, and the comparison at app.py:63 is done in float32 against float32(0.1) = 0.100000001490116…, so a confidence of exactly that value is rejected by the code and accepted by the model; on every other value the two agree.
