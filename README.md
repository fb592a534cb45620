# Swirl The Wheel: a verified model of the wheel logic

Swirl The Wheel is a single-page decision wheel. The user keeps a list of choices,
and the page cuts the wheel into one equal segment per choice, coloured from the
checked "flavour" boxes. A spin starts with a random velocity. Each animation frame
turns the wheel and applies friction. When the wheel is slow enough it stops, picks
the segment under the 12 o'clock pointer, and snaps to that segment's middle.

This project models that logic in Dafny and proves its properties.

The modules follow the script's parts:

- `Numeric`: the "Utils" of the script:
  - `norm`, with ECMAScript's truncating `%` written out;
  - `mod`, `clamp`, `rand` and `shortAngleDist`;
  - the shuffle's swap index.
- `Text`: ECMAScript `trim`, and `escapeHtml` with its inverse.
- `Palette`: `getFlavors`, including its two-flavour fallback.
- `Segments`:
  - `precomputeSegments`, as the function `BuildSegments`;
  - `pickWinner`;
  - the settle snap.
- `Wheel`:
  - `loadChoices`;
  - the list edits as functions;
  - the class `Wheel.Wheel`, holding the page state: `angle`, `velocity`, `spinning`, `choices`, the flavour boxes, the cached `flavors` and `segments`.

  Its methods are the event handlers: the spin button, one frame of `loop`, add, remove, clear, shuffle and the flavour change handler.

Numbers are exact reals. A full turn `TAU` is 6.283185307179586, the decimal that JavaScript prints for `Math.PI*2`, taken as an exact real (the double itself is slightly larger), and `PI = TAU/2`.

The host's inputs are parameters:

- `Math.random()` draws;
- the power and friction slider values;
- the checkbox states;
- what local storage yields.

The class keeps two invariants:

- `Resting()`: a wheel that is not spinning has velocity 0;
- `Fresh()`: the cached palette and segments are those of the current choices and boxes.

Each method states the fields it may change. The spin button leaves the choices and segments alone. A frame (`Tick`) leaves the choices alone and changes the segments only to rebuild an empty list (app.js:225), which a fresh wheel never has. The list edits leave the spin state alone.

## Model

| member | source | states |
|---|---|---|
| Numeric.Norm | app.js:247 | the normalised angle lies in [0, TAU) and differs from the input by whole turns |
| Numeric.NormIsFloorMod | app.js:247 | the truncating remainder plus the sign fix equals the floor-based remainder a - floor(a/TAU)*TAU |
| Numeric.NormPeriodic | app.js:247 | adding k whole turns does not change the normalised angle |
| Numeric.NormCongruent | app.js:247 | congruent angles normalise to the same value |
| Numeric.Mod | app.js:246 | for m > 0 `((n % m) + m) % m` lies in [0, m) and equals the Euclidean remainder |
| Numeric.ModOfShift | app.js:246 | the two truncating remainders of `mod` compose to the Euclidean remainder |
| Numeric.Clamp | app.js:245 | the result lies in [min, max]; it is v inside the range, min below it, and max above it or when min > max |
| Numeric.Rand | app.js:244 | for a draw in [0, 1) and min < max, the result lies in [min, max) |
| Numeric.SwapIndex | app.js:71 | `Math.floor(r*(i+1))` for a draw r in [0, 1) lies in [0, i] |
| Numeric.ShortAngleDist | app.js:248-253 | the turn lies in [-PI, PI], and from plus the turn points at to |
| Numeric.ShortAngleDistShortest | app.js:248-253 | no turn from `from` to `to` is shorter in magnitude than shortAngleDist |
| Text.Trim | app.js:61 | the result is the input without its leading and trailing whitespace; it is empty iff the input is all whitespace |
| Text.TrimIdempotent | app.js:61 | trimming twice equals trimming once |
| Text.EscapeChar | app.js:254 | special characters become an entity starting with `&`; other characters are unchanged |
| Text.EscapeHtml | app.js:254 | the output is at least as long as the input and holds no raw `<`, `>`, `"` or `'` |
| Text.EscapeHtmlConcat | app.js:254 | escaping distributes over concatenation, one character at a time |
| Text.EscapeHtmlPlain | app.js:254 | text without special characters comes out unchanged |
| Text.UnescapeEscape | app.js:254 | reading the entities back gives the original text, so escaping loses nothing |
| Palette.ActiveFlavors | app.js:29-33 | one flavour per checked box, in order; empty iff no box is checked |
| Palette.ActiveFlavorsAppend | app.js:29-33 | one more box adds its flavour (trimmed label, colour) at the end when it is checked and nothing when it is not, so the flavours follow the boxes' order |
| Palette.BoxFlavor | app.js:31-32 | no ensures of its own; ActiveFlavorsAppend states that each checked box contributes it |
| Palette.GetFlavors | app.js:28-38 | at least two flavours: the checked ones when there are two or more, else the two defaults |
| Palette.UncheckedBoxIgnored | app.js:30 | an unchecked box does not change the active flavours |
| Segments.SegmentNames | app.js:215 | there are max(1, count of choices) names: the choices, or the placeholder |
| Segments.BuildSegments | app.js:214-223 | max(1, count of choices) segments; BuildSegmentsShape, BuiltTiling and ArcsCoverTurn state the rest |
| Segments.BuildSegmentsShape | app.js:214-223 | max(1, count of choices) segments in choice order (the placeholder when empty); colours cycle through the palette; every arc is TAU/len; start i is -PI/2 + i*arc |
| Segments.BuiltTiling | app.js:214-223 | the built segments tile the turn: each starts where the previous ends, from the pointer round to the pointer plus a full turn |
| Segments.ArcsCoverTurn | app.js:216-222 | the arcs of the built segments sum to TAU |
| Segments.TilingSuffixSum | app.js:216-222 | along a tiling, the arcs from segment i on fill the rest of the turn |
| Segments.Hit | app.js:228-229 | no ensures of its own (a predicate); HitIff states what the test means |
| Segments.HitIff | app.js:228-229 | the wrap-aware test holds iff the angle lies less than one arc past the segment's start, around the circle |
| Segments.FirstHit | app.js:227-232 | the index found is a valid index; FirstHitFound and FirstHitMissed state which one |
| Segments.FirstHitFound | app.js:227-231 | when segment j is hit, the loop from i stops at the first hit, which is no later than j |
| Segments.FirstHitMissed | app.js:227-232 | when no segment from i on is hit, the loop falls through to `segments[0]` |
| Segments.WinnerIndexSpec | app.js:226-232 | the index found is the first hit, or 0 when nothing is hit |
| Segments.PickWinner | app.js:226-232 | no ensures of its own; PickWinnerSpec and PickWinnerTiling state them |
| Segments.PickWinnerSpec | app.js:226-232 | for segments that exist, the winner is one of the segments: the first one in list order whose interval contains the normalised angle, or segments[0] when none does |
| Segments.PickWinnerCongruent | app.js:226 | the winner depends only on the angle modulo a turn |
| Segments.PickWinnerPeriodic | app.js:226 | turning by whole turns does not change the winner |
| Segments.ExactlyOneHit | app.js:224-233 | on a tiling, exactly one segment contains each normalised angle |
| Segments.PickWinnerTiling | app.js:224-233 | on a tiling the winner is the unique hit, the one whose slice from the pointer holds the angle |
| Segments.Snapped | app.js:119-120 | no ensures of its own; SnappedSpec states them |
| Segments.SnappedSpec | app.js:117-120 | on a tiling the snap turns by at most half a turn, onto the middle of the winner, which stays the winner |
| Wheel.LoadChoices | app.js:49-55 | never empty: the stored list when it is a non-empty array, else Yes/No/Maybe |
| Wheel.Draws | app.js:70-71 | the swap indices drawn for n choices are valid: the pass at i swaps with an index in [0, i] |
| Wheel.Swap | app.js:72 | the swap keeps the length; SwapMultiset (a helper) keeps the multiset |
| Wheel.ShuffleFrom | app.js:70-73 | no ensures of its own; ShufflePermutes and ShuffleIdentity state them, and Wheel.Wheel.ShuffleChoices is tied to it |
| Wheel.ShufflePermutes | app.js:69-75 | the Fisher-Yates passes keep the length and the multiset of choices |
| Wheel.ShuffleIdentity | app.js:69-75 | when every draw picks its own index, the shuffle leaves the list unchanged |
| Wheel.RemovedAt | app.js:86 | `splice(idx,1)` removes exactly element idx and keeps the others in order; an index past the end removes nothing |
| Wheel.RemovedAtMultiset | app.js:86 | removal takes out one copy of the removed element |
| Wheel.Added | app.js:61-63 | an all-whitespace input adds nothing; otherwise the trimmed text is appended |
| Wheel.AddedTrimmed | app.js:61-63 | submitting already-trimmed text adds the same choice as the raw input |
| Wheel.Wheel.constructor | app.js:39-58 | the start state: the loaded choices, their segments, at rest at the pointer angle, both invariants |
| Wheel.Wheel.Precompute | app.js:214-223 | the segments become those of the current choices and boxes |
| Wheel.Wheel.ChangeFlavors | app.js:40-44 | the palette is read again and the segments recoloured |
| Wheel.Wheel.StartSpin | app.js:102-108 | while spinning nothing changes; otherwise it spins at velocity rand(0.22,0.35)*power, with the factor in [0.22, 0.35); at rest implies velocity 0 is kept |
| Wheel.Wheel.Tick | app.js:112-124 | idle: nothing changes; spinning: the angle grows by the old velocity and the velocity is multiplied by friction; below 0.002 the wheel stops at velocity 0, returns the winner under the turned angle (rebuilding missing segments) and snaps to its middle; on tiling segments the winner is one of them and stays under the pointer; a fresh wheel stays fresh |
| Wheel.Wheel.Advance | app.js:113-114 | the angle grows by the old velocity; the velocity is multiplied by friction |
| Wheel.Wheel.FindWinner | app.js:224-233 | with no segments they are first rebuilt from the choices and boxes, otherwise kept; the result is the winner under the current angle |
| Wheel.Wheel.Settle | app.js:117-120 | the winner under the current angle; the angle becomes the snapped angle; on tiling segments the winner is one of them and stays under the snapped angle; a fresh wheel stays fresh |
| Wheel.Wheel.FreshTiling | app.js:214-223 | the segments of a fresh wheel tile the turn, so the properties proved for tilings apply to the page's own wheel |
| Wheel.Wheel.Add | app.js:59-64 | adds the trimmed input iff it is non-empty; segments are rebuilt |
| Wheel.Wheel.RemoveAt | app.js:86 | removes exactly element idx; segments are rebuilt |
| Wheel.Wheel.Clear | app.js:66-68 | no choices are left; only the placeholder segment remains |
| Wheel.Wheel.Shuffle | app.js:69-75 | the choices become the Fisher-Yates passes over the drawn indices, a permutation of the old list; segments are rebuilt |
| Wheel.Wheel.ShuffleChoices | app.js:70-73 | the in-place descending loop of swaps computes exactly the Fisher-Yates passes |

Two details of the code that the model keeps:

- `shortAngleDist` can return both -PI and PI, not only a value in (-PI, PI]. Both ends are reachable.
- Segment starts are kept unnormalised, as `-PI/2 + i*arc`, and stay below `3*PI/2`; the last segment ends there.

## Left out

- Drawing (`draw`, `hardRedraw`, `resizeForDPR`), the DOM, the rendering of the list and the modal are UI plumbing with no logic to verify. So are the result text of app.js:107 and app.js:118.
- `localStorage` and `JSON.parse` are I/O, and so is `saveChoices`. Their result is the parameter `Stored`. Items of a stored array are taken as strings; arrays holding other values are not modelled.
- `requestAnimationFrame` scheduling is left out: one call of `Tick` is one frame. `parseFloat` of the sliders is also left out: the power and friction are reals, and NaN is not modelled.
- `Math.random()`: its values are parameters (`rnd`, and the draws `js` built by `Draws`).
- IEEE-754 rounding, -0 and overflow: numbers are exact reals. The `segments[0]` fallback of `pickWinner` is modelled, but on exact reals it is reached only for segments that do not tile the turn.
- Wheel.Wheel.Tick: termination of a spin (velocity eventually below the threshold for friction < 1) is not proved. Each frame is modelled on its own.
- Start-up order: app.js:58 calls `renderChoices`, which reaches the assignment to `segments` at app.js:217 (through app.js:91) while `let segments` at app.js:212 is still uninitialised. That throws a ReferenceError, which stops the script. The submit, clear, shuffle, spin and modal listeners (app.js:59-75, 102, 240-241) and `requestAnimationFrame(loop)` (app.js:110) are never installed, so the wheel never turns. Only two handlers are installed: the remove buttons drawn at app.js:85 before the throw, and the flavour handler at app.js:40. A remove click still splices and saves the list, and the flavour handler still reads the palette. Each then throws again at app.js:217. The constructor models the intended start state instead, and the model's `RemoveAt` and `ChangeFlavors` finish with the rebuild that the script as written never reaches.
- The `if(!segments.length)` rebuild inside `pickWinner` (app.js:225) is modelled in `Wheel.Wheel.FindWinner`. A fresh wheel always has at least one segment, so the rebuild is never taken from a fresh wheel.
- Strings are sequences of Unicode scalar values, while JavaScript strings are UTF-16 code units, so an input holding a lone surrogate cannot be represented. `trim` and `escapeHtml` only look at characters of the Basic Multilingual Plane that are not surrogates, so nothing else changes.
- The `idx` captured by each remove button is taken to be current. Every edit re-renders the list, so it is.
