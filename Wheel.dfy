/** The state of the wheel page (app.js:39-124): the choice list with its stored
    fallback, the flavour boxes, the precomputed segments, and the spin state
    machine of `angle`, `velocity` and `spinning` driven by the spin button and the
    animation loop. Host inputs (the power and friction sliders, `Math.random()`,
    the flavour checkboxes, the stored list) are parameters. */
module Wheel {
  import opened Numeric
  import opened Text
  import opened Palette
  import opened Segments

  datatype Option<T> = None | Some(value: T)

  /** What `localStorage.getItem` and `JSON.parse` yield for the stored list
      (app.js:51-52): nothing stored (or an empty string), text that does not
      parse, a JSON value that is not an array, or an array of choices. */
  datatype Stored = Missing | Malformed | NotAList | List(items: seq<string>)

  /** The list used when nothing usable is stored (app.js:52-54). */
  const DEFAULT_CHOICES: seq<string> := ["Yes", "No", "Maybe"]

  /** The velocity below which a spin settles (app.js:115). */
  const SETTLE_THRESHOLD: real := 0.002
  /** The range of the random spin factor, `rand(0.22,0.35)` (app.js:105). */
  const SPIN_LOW: real := 0.22
  const SPIN_HIGH: real := 0.35

  /** `loadChoices()` (app.js:50-55): the stored list when it is a non-empty array,
      the three defaults otherwise. */
  function LoadChoices(stored: Stored): (r: seq<string>)
    ensures |r| > 0
    ensures stored.List? && |stored.items| > 0 ==> r == stored.items
    ensures !(stored.List? && |stored.items| > 0) ==> r == DEFAULT_CHOICES
  {
    match stored
    case List(items) => if |items| > 0 then items else DEFAULT_CHOICES
    case _ => DEFAULT_CHOICES
  }

  /** The swap of positions i and j of xs (`[choices[i],choices[j]]=[choices[j],choices[i]]`). */
  function Swap<T>(xs: seq<T>, i: nat, j: nat): (r: seq<T>)
    requires i < |xs| && j < |xs|
    ensures |r| == |xs|
  {
    xs[i := xs[j]][j := xs[i]]
  }

  lemma SwapMultiset<T>(xs: seq<T>, i: nat, j: nat)
    requires i < |xs| && j < |xs|
    ensures multiset(Swap(xs, i, j)) == multiset(xs)
  {
  }

  /** Swap indices for the shuffle of n choices: the pass at index i (the k-th pass,
      i == n - 1 - k) swaps with an index in [0, i]. */
  predicate ValidDraws(js: seq<int>, n: int) {
    && n - 1 <= |js|
    && forall k :: 0 <= k < |js| && k < n - 1 ==> 0 <= js[k] <= n - 1 - k
  }

  /** The swap indices `Math.floor(Math.random()*(i+1))` (app.js:71) that the shuffle
      of n choices draws, from the values of `Math.random()` in the order drawn. */
  function Draws(rands: seq<real>, n: int): (js: seq<int>)
    requires n - 1 <= |rands|
    requires forall k :: 0 <= k < |rands| ==> 0.0 <= rands[k] < 1.0
    ensures ValidDraws(js, n)
  {
    var m := if n > 0 then n - 1 else 0;
    seq(m, k requires 0 <= k < m => SwapIndex(rands[k], n - 1 - k))
  }

  /** The Fisher-Yates passes of the shuffle (app.js:70-73) for indices i, i-1, ..., 1;
      the pass at index i swaps with js[|xs| - 1 - i]. */
  function ShuffleFrom<T>(xs: seq<T>, js: seq<int>, i: int): (r: seq<T>)
    requires i < |xs| && ValidDraws(js, |xs|)
    decreases i
  {
    if i <= 0 then xs
    else ShuffleFrom(Swap(xs, i, js[|xs| - 1 - i]), js, i - 1)
  }

  /** The shuffle only reorders: it keeps the length and every element with its
      multiplicity. */
  lemma {:induction false} ShufflePermutes<T>(xs: seq<T>, js: seq<int>, i: int)
    requires i < |xs| && ValidDraws(js, |xs|)
    ensures |ShuffleFrom(xs, js, i)| == |xs|
    ensures multiset(ShuffleFrom(xs, js, i)) == multiset(xs)
    decreases i
  {
    if i > 0 {
      SwapMultiset(xs, i, js[|xs| - 1 - i]);
      ShufflePermutes(Swap(xs, i, js[|xs| - 1 - i]), js, i - 1);
    }
  }

  /** With every draw landing on its own index each pass swaps an element with
      itself, and the shuffle leaves the list as it is. */
  lemma {:induction false} ShuffleIdentity<T>(xs: seq<T>, js: seq<int>, i: int)
    requires i < |xs| && ValidDraws(js, |xs|)
    requires forall k :: 0 <= k < |xs| - 1 ==> js[k] == |xs| - 1 - k
    ensures ShuffleFrom(xs, js, i) == xs
    decreases i
  {
    if i > 0 {
      assert js[|xs| - 1 - i] == i;
      assert Swap(xs, i, i) == xs;
      ShuffleIdentity(xs, js, i - 1);
    }
  }

  /** xs without its element at idx, `choices.splice(idx,1)` (app.js:86); an index
      past the end removes nothing. */
  function RemovedAt(xs: seq<string>, idx: nat): (r: seq<string>)
    ensures idx < |xs| ==> |r| == |xs| - 1
    ensures idx < |xs| ==> forall k :: 0 <= k < idx ==> r[k] == xs[k]
    ensures idx < |xs| ==> forall k :: idx <= k < |r| ==> r[k] == xs[k + 1]
    ensures idx >= |xs| ==> r == xs
  {
    if idx < |xs| then xs[..idx] + xs[idx + 1..] else xs
  }

  /** Removing an element takes exactly one copy of it out of the list. */
  lemma RemovedAtMultiset(xs: seq<string>, idx: nat)
    requires idx < |xs|
    ensures multiset(RemovedAt(xs, idx)) + multiset{xs[idx]} == multiset(xs)
  {
    assert xs == xs[..idx] + [xs[idx]] + xs[idx + 1..];
  }

  /** The choice a non-empty input adds: the trimmed text, or nothing (app.js:61-62). */
  function Added(xs: seq<string>, input: string): (r: seq<string>)
    ensures Trim(input) == [] ==> r == xs
    ensures Trim(input) != [] ==> |r| == |xs| + 1 && r[..|xs|] == xs && r[|xs|] == Trim(input)
  {
    var v := Trim(input);
    if v == [] then xs else xs + [v]
  }

  /** Submitting the trimmed text adds the same choice as submitting the raw input:
      trimming is applied once and for all. */
  lemma AddedTrimmed(xs: seq<string>, input: string)
    ensures Added(xs, Trim(input)) == Added(xs, input)
  {
    TrimIdempotent(input);
  }

  /** The velocity after one frame of friction, `velocity *= friction` (app.js:114). */
  function Slowed(velocity: real, friction: real): real {
    velocity * friction
  }

  /** The whole page state that the wheel logic reads and writes. */
  class Wheel {
    var angle: real
    var velocity: real
    var spinning: bool
    var choices: seq<string>
    /** The flavour checkboxes of the page, as the DOM holds them. */
    var boxes: seq<FlavorBox>
    /** The cached palette, `flavors` (app.js:39). */
    var flavors: seq<Flavor>
    var segments: seq<Segment>

    /** A wheel that is not spinning stands still. */
    ghost predicate Resting()
      reads this`spinning, this`velocity
    {
      !spinning ==> velocity == 0.0
    }

    /** The cached palette and the segments are those of the current choices and
        flavour boxes. */
    ghost predicate Fresh()
      reads this`choices, this`boxes, this`flavors, this`segments
    {
      && flavors == GetFlavors(boxes)
      && segments == BuildSegments(choices, boxes)
    }

    ghost predicate Valid()
      reads this
    {
      Resting() && Fresh()
    }

    /** Page start-up: the loaded choices, their segments, the wheel at rest with
        the pointer angle (app.js:39, 48, 58, 98-100, 213). */
    constructor(stored: Stored, boxes0: seq<FlavorBox>)
      ensures Valid()
      ensures choices == LoadChoices(stored) && boxes == boxes0
      ensures angle == POINTER_ANGLE && velocity == 0.0 && !spinning
    {
      angle := POINTER_ANGLE;
      velocity := 0.0;
      spinning := false;
      var loaded := LoadChoices(stored);
      choices := loaded;
      boxes := boxes0;
      flavors := GetFlavors(boxes0);
      segments := BuildSegments(loaded, boxes0);
    }

    /** `precomputeSegments()` (app.js:214-223). */
    method Precompute()
      modifies this`segments
      ensures segments == BuildSegments(choices, boxes)
    {
      segments := BuildSegments(choices, boxes);
    }

    /** The change handler of the flavour boxes (app.js:40-44): the palette is read
        again and the segments recoloured. */
    method ChangeFlavors(newBoxes: seq<FlavorBox>)
      modifies this`boxes, this`flavors, this`segments
      ensures Fresh()
      ensures boxes == newBoxes && flavors == GetFlavors(newBoxes)
      ensures segments == BuildSegments(choices, newBoxes)
    {
      boxes := newBoxes;
      flavors := GetFlavors(boxes);
      Precompute();
    }

    /** The spin button (app.js:102-108): ignored while spinning; otherwise the
        wheel starts at `rand(0.22,0.35)*power`, with `Math.random()` passed in as rnd. */
    method StartSpin(power: real, rnd: real) returns (started: bool)
      requires Resting() && 0.0 <= rnd < 1.0
      modifies this`velocity, this`spinning
      ensures Resting()
      ensures started <==> !old(spinning)
      ensures !started ==> velocity == old(velocity) && spinning
      ensures started ==> spinning && velocity == Rand(rnd, SPIN_LOW, SPIN_HIGH) * power
      ensures started ==> SPIN_LOW <= Rand(rnd, SPIN_LOW, SPIN_HIGH) < SPIN_HIGH
    {
      if spinning {
        return false;
      }
      var r := Rand(rnd, SPIN_LOW, SPIN_HIGH);
      velocity := r * power;
      spinning := true;
      started := true;
    }

    /** One frame of `loop()` (app.js:112-124) with the friction slider's value: the
        wheel turns by its velocity and slows by friction; once slower than the
        threshold it stops and settles. The winner is returned on the frame that
        settles. */
    method Tick(friction: real) returns (winner: Option<Segment>)
      requires Resting()
      modifies this`angle, this`velocity, this`spinning, this`segments
      ensures Resting()
      ensures old(Fresh()) ==> Fresh()
      ensures !old(spinning) ==>
        && winner == None && angle == old(angle) && velocity == old(velocity) && !spinning
        && segments == old(segments)
      ensures old(spinning) && Slowed(old(velocity), friction) >= SETTLE_THRESHOLD ==>
        && winner == None && spinning
        && angle == old(angle) + old(velocity)
        && velocity == Slowed(old(velocity), friction)
        && segments == old(segments)
      ensures old(spinning) && Slowed(old(velocity), friction) < SETTLE_THRESHOLD ==>
        && !spinning && velocity == 0.0
        && Repicked(old(segments))
        && winner.Some?
        && winner.value == PickWinner(segments, old(angle) + old(velocity))
        && angle == Snapped(segments, old(angle) + old(velocity))
      ensures Tiling(segments) && winner.Some? ==>
        && winner.value in segments
        && PickWinner(segments, angle) == winner.value
    {
      winner := None;
      if spinning {
        Advance(friction);
        if velocity < SETTLE_THRESHOLD {
          spinning := false;
          velocity := 0.0;
          var w := Settle();
          winner := Some(w);
        }
      }
    }

    /** The motion step of a frame (app.js:113-114): turn by the velocity, then
        slow down by the friction factor. */
    method Advance(friction: real)
      modifies this`angle, this`velocity
      ensures angle == old(angle) + old(velocity)
      ensures velocity == Slowed(old(velocity), friction)
    {
      angle := angle + velocity;
      velocity := velocity * friction;
    }

    /** The segments `pickWinner` searches, given the segments it found: those, or
        the freshly built ones when there were none (app.js:225). */
    ghost predicate Repicked(before: seq<Segment>)
      reads this`segments, this`choices, this`boxes
    {
      && |segments| > 0
      && (|before| > 0 ==> segments == before)
      && (|before| == 0 ==> segments == BuildSegments(choices, boxes))
    }

    /** `pickWinner()` (app.js:224-233): with no segments it first rebuilds them
        (app.js:225), then searches them for the segment under the current angle. */
    method FindWinner() returns (w: Segment)
      modifies this`segments
      ensures Repicked(old(segments))
      ensures w == PickWinner(segments, angle)
    {
      if |segments| == 0 {
        Precompute();
      }
      w := PickWinner(segments, angle);
    }

    /** The settle step of a frame (app.js:117-120): the winner under the pointer,
        then the shortest turn to its middle. On segments that tile the turn (as
        `Fresh()` segments do, FreshTiling) the winner stays under the pointer. */
    method Settle() returns (w: Segment)
      modifies this`angle, this`segments
      ensures Repicked(old(segments))
      ensures old(Fresh()) ==> Fresh()
      ensures w == PickWinner(segments, old(angle))
      ensures angle == Snapped(segments, old(angle))
      ensures Tiling(segments) ==> w in segments && PickWinner(segments, angle) == w
    {
      w := FindWinner();
      var turned := angle;
      angle := turned + ShortAngleDist(turned, Middle(w));
      assert angle == Snapped(segments, turned);
      if Tiling(segments) {
        SnappedSpec(segments, turned);
      }
    }

    /** The segments of a wheel whose cache is fresh tile the turn. */
    lemma FreshTiling()
      requires Fresh()
      ensures Tiling(segments)
    {
      BuiltTiling(choices, boxes);
    }

    /** The submit handler (app.js:59-64): a non-empty trimmed input is appended. */
    method Add(input: string) returns (added: bool)
      requires Fresh()
      modifies this`choices, this`segments
      ensures Fresh()
      ensures added <==> Trim(input) != []
      ensures choices == Added(old(choices), input)
      ensures segments == BuildSegments(choices, boxes)
    {
      var v := Trim(input);
      if v == [] {
        return false;
      }
      choices := choices + [v];
      added := true;
      Precompute();
    }

    /** The remove button of the choice at idx (app.js:86). */
    method RemoveAt(idx: nat)
      requires Fresh()
      modifies this`choices, this`segments
      ensures Fresh()
      ensures choices == RemovedAt(old(choices), idx)
      ensures segments == BuildSegments(choices, boxes)
    {
      if idx < |choices| {
        choices := choices[..idx] + choices[idx + 1..];
      }
      Precompute();
    }

    /** The clear button (app.js:66-68): no choices, so the placeholder segment alone. */
    method Clear()
      requires Fresh()
      modifies this`choices, this`segments
      ensures Fresh()
      ensures choices == []
      ensures segments == BuildSegments([], boxes)
    {
      choices := [];
      Precompute();
    }

    /** The shuffle button (app.js:69-75): the choices are shuffled, then the
        segments rebuilt. */
    method Shuffle(js: seq<int>)
      requires Fresh()
      requires ValidDraws(js, |choices|)
      modifies this`choices, this`segments
      ensures Fresh()
      ensures choices == ShuffleFrom(old(choices), js, |old(choices)| - 1)
      ensures |choices| == |old(choices)| && multiset(choices) == multiset(old(choices))
      ensures segments == BuildSegments(choices, boxes)
    {
      ghost var before := choices;
      ShuffleChoices(js);
      ShufflePermutes(before, js, |before| - 1);
      Precompute();
    }

    /** The loop of app.js:70-73: Fisher-Yates from the last index down to 1, the
        pass at index i swapping with the drawn index js[|choices| - 1 - i] (see
        Draws for how the page draws them). */
    method ShuffleChoices(js: seq<int>)
      requires ValidDraws(js, |choices|)
      modifies this`choices
      ensures choices == ShuffleFrom(old(choices), js, |old(choices)| - 1)
    {
      var n := |choices|;
      ghost var original := choices;
      var i := n - 1;
      while i > 0
        invariant -1 <= i < n && |choices| == n
        invariant ShuffleFrom(choices, js, i) == ShuffleFrom(original, js, n - 1)
        decreases i
      {
        var j := js[n - 1 - i];
        choices := choices[i := choices[j]][j := choices[i]];
        i := i - 1;
      }
    }
  }
}
