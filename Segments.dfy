/** The segment model of the wheel: `precomputeSegments` (app.js:214-223) cuts the
    turn into equal arcs, one per choice, starting at the 12 o'clock pointer angle,
    and `pickWinner` (app.js:224-233) finds the segment under a wheel angle. */
module Segments {
  import opened Numeric
  import opened Palette

  /** One slice of the wheel: its choice, its colour, where it starts and how wide it is. */
  datatype Segment = Segment(name: string, color: string, start: real, arc: real)

  /** The pointer at 12 o'clock, `-Math.PI/2` (app.js:98, app.js:220). */
  const POINTER_ANGLE: real := -PI / 2.0

  /** The one name used when there are no choices, an em dash (app.js:215). */
  const PLACEHOLDER: string := "\U{2014}"

  function Max(a: int, b: int): int {
    if a < b then b else a
  }

  /** The names the segments carry: the choices, or the placeholder alone. */
  function SegmentNames(choices: seq<string>): (names: seq<string>)
    ensures |names| == Max(1, |choices|)
  {
    if |choices| > 0 then choices else [PLACEHOLDER]
  }

  /** The segments `precomputeSegments` builds from the choices and the flavour boxes. */
  function BuildSegments(choices: seq<string>, boxes: seq<FlavorBox>): (segs: seq<Segment>)
    ensures |segs| == Max(1, |choices|)
  {
    var names := SegmentNames(choices);
    Layout(names, GetFlavors(boxes), TAU / |names| as real)
  }

  /** Segment i is named names[i], coloured round the palette and starts i arcs
      past the pointer (the loop body of app.js:219-221). */
  function Layout(names: seq<string>, palette: seq<Flavor>, arc: real): (segs: seq<Segment>)
    requires |palette| > 0
    ensures |segs| == |names|
  {
    seq(|names|, i requires 0 <= i < |names| =>
      Segment(names[i], palette[i % |palette|].color, POINTER_ANGLE + i as real * arc, arc))
  }

  /** The width of one of n equal arcs. */
  lemma ArcOfCount(n: nat)
    requires n >= 1
    ensures 0.0 < TAU / n as real <= TAU
    ensures (TAU / n as real) * n as real == TAU
  {
    var arc := TAU / n as real;
    assert arc * n as real == TAU;
    if n > 1 {
      MulMonotone(1.0, n as real, arc);
    }
  }

  /** x * c <= y * c for x <= y and c >= 0. */
  lemma MulMonotone(x: real, y: real, c: real)
    requires x <= y && c >= 0.0
    ensures x * c <= y * c
  {
    if x < y && c > 0.0 {
      PositiveProduct(y - x, c);
      Distribute(y - x, x, c);
      assert (y - x + x) * c == y * c;
    }
  }

  /** Segments that cut the turn into equal arcs: the first starts at the pointer,
      each starts where the previous one ends, the last ends one turn past the pointer. */
  predicate Tiling(segs: seq<Segment>) {
    && |segs| >= 1
    && 0.0 < segs[0].arc
    && (forall i :: 0 <= i < |segs| ==> segs[i].arc == segs[0].arc)
    && segs[0].start == POINTER_ANGLE
    && (forall i :: 0 < i < |segs| ==> segs[i].start == segs[i - 1].start + segs[0].arc)
    && segs[|segs| - 1].start + segs[0].arc == POINTER_ANGLE + TAU
  }

  /** The shape of the built segments: one per choice (or the placeholder alone), in
      choice order, coloured round the palette, all of width TAU/n, segment i
      starting i arcs past the pointer. */
  lemma BuildSegmentsShape(choices: seq<string>, boxes: seq<FlavorBox>)
    ensures var segs := BuildSegments(choices, boxes);
      && |segs| == Max(1, |choices|)
      && (|choices| > 0 ==> forall i :: 0 <= i < |segs| ==> segs[i].name == choices[i])
      && (|choices| == 0 ==> segs[0].name == PLACEHOLDER)
      && (forall i :: 0 <= i < |segs| ==>
            segs[i].color == GetFlavors(boxes)[i % |GetFlavors(boxes)|].color)
      && (forall i :: 0 <= i < |segs| ==> segs[i].arc == TAU / |segs| as real)
      && (forall i :: 0 <= i < |segs| ==> segs[i].start == POINTER_ANGLE + i as real * segs[i].arc)
  {
    var names := SegmentNames(choices);
    var palette := GetFlavors(boxes);
    var arc := TAU / |names| as real;
    var segs := Layout(names, palette, arc);
    assert BuildSegments(choices, boxes) == segs;
    forall i | 0 <= i < |segs|
      ensures segs[i] == Segment(names[i], palette[i % |palette|].color, POINTER_ANGLE + i as real * arc, arc)
    {
    }
  }

  /** The built segments tile the turn from the pointer on (app.js:218-221). */
  lemma BuiltTiling(choices: seq<string>, boxes: seq<FlavorBox>)
    ensures Tiling(BuildSegments(choices, boxes))
  {
    var names := SegmentNames(choices);
    ArcOfCount(|names|);
    LayoutTiling(names, GetFlavors(boxes), TAU / |names| as real);
  }

  /** n arcs of width arc, laid end to end from the pointer, tile the turn when
      n arcs make a turn. */
  lemma LayoutTiling(names: seq<string>, palette: seq<Flavor>, arc: real)
    requires |palette| > 0 && |names| > 0
    requires 0.0 < arc && arc * |names| as real == TAU
    ensures Tiling(Layout(names, palette, arc))
  {
    var segs := Layout(names, palette, arc);
    var n := |names|;
    forall i | 0 < i < n
      ensures segs[i].start == segs[i - 1].start + arc
    {
      LayoutStep(names, palette, arc, i);
    }
    LayoutStep(names, palette, arc, n);
  }

  /** One more arc past the start of segment i - 1 is i arcs past the pointer. */
  lemma LayoutStep(names: seq<string>, palette: seq<Flavor>, arc: real, i: nat)
    requires |palette| > 0 && 0 < i <= |names|
    ensures Layout(names, palette, arc)[i - 1].start + arc == POINTER_ANGLE + i as real * arc
  {
    var k := (i - 1) as real;
    Distribute(k, 1.0, arc);
    assert k + 1.0 == i as real;
  }

  /** Total width of a list of segments. */
  function SumArcs(segs: seq<Segment>): real {
    if segs == [] then 0.0 else segs[0].arc + SumArcs(segs[1..])
  }

  /** The arcs of a tiling from segment i on reach from its start to the end of the turn. */
  lemma {:induction false} TilingSuffixSum(segs: seq<Segment>, i: nat)
    requires Tiling(segs) && i < |segs|
    ensures SumArcs(segs[i..]) == POINTER_ANGLE + TAU - segs[i].start
    decreases |segs| - i
  {
    assert segs[i..][1..] == segs[i + 1..];
    if i + 1 < |segs| {
      TilingSuffixSum(segs, i + 1);
    } else {
      assert segs[i + 1..] == [];
    }
  }

  /** The arcs of the segments add up to one full turn. */
  lemma ArcsCoverTurn(choices: seq<string>, boxes: seq<FlavorBox>)
    ensures SumArcs(BuildSegments(choices, boxes)) == TAU
  {
    var segs := BuildSegments(choices, boxes);
    BuiltTiling(choices, boxes);
    TilingSuffixSum(segs, 0);
    assert segs[0..] == segs;
  }

  /** The wrap-aware, half-open test of `pickWinner` (app.js:228-229): does the
      normalised angle a fall within segment s? */
  predicate Hit(s: Segment, a: real) {
    var start := Norm(s.start);
    var end := Norm(s.start + s.arc);
    if start < end then start <= a < end else a >= start || a < end
  }

  /** The loop of app.js:227-232 from index i on: the first segment at or after i
      whose interval contains the normalised angle a, or 0, the fallback to
      `segments[0]`, when none does. */
  function FirstHit(segs: seq<Segment>, a: real, i: nat): (k: nat)
    requires 0 < |segs| && i <= |segs|
    decreases |segs| - i
    ensures k < |segs|
  {
    if i == |segs| then 0
    else if Hit(segs[i], a) then i
    else FirstHit(segs, a, i + 1)
  }

  /** FirstHit finds the first hit at or after i, when there is one. */
  lemma {:induction false} FirstHitFound(segs: seq<Segment>, a: real, i: nat, j: nat)
    requires 0 < |segs| && i <= j < |segs| && Hit(segs[j], a)
    decreases |segs| - i
    ensures var k := FirstHit(segs, a, i);
      i <= k <= j && Hit(segs[k], a) && forall m :: i <= m < k ==> !Hit(segs[m], a)
  {
    if !Hit(segs[i], a) {
      FirstHitFound(segs, a, i + 1, j);
    }
  }

  /** FirstHit falls back to 0 when no segment at or after i is hit. */
  lemma {:induction false} FirstHitMissed(segs: seq<Segment>, a: real, i: nat)
    requires 0 < |segs| && i <= |segs|
    requires forall j :: i <= j < |segs| ==> !Hit(segs[j], a)
    decreases |segs| - i
    ensures FirstHit(segs, a, i) == 0
  {
    if i < |segs| {
      FirstHitMissed(segs, a, i + 1);
    }
  }

  function WinnerIndex(segs: seq<Segment>, a: real): (k: nat)
    requires 0 < |segs|
    ensures k < |segs|
  {
    FirstHit(segs, a, 0)
  }

  /** The winner index is the first hit, or 0 when nothing is hit. */
  lemma WinnerIndexSpec(segs: seq<Segment>, a: real)
    requires 0 < |segs|
    ensures var k := WinnerIndex(segs, a);
      (exists j :: 0 <= j < |segs| && Hit(segs[j], a)) ==>
        Hit(segs[k], a) && forall j :: 0 <= j < k ==> !Hit(segs[j], a)
    ensures (forall j :: 0 <= j < |segs| ==> !Hit(segs[j], a)) ==> WinnerIndex(segs, a) == 0
  {
    if j :| 0 <= j < |segs| && Hit(segs[j], a) {
      FirstHitFound(segs, a, 0, j);
    } else {
      FirstHitMissed(segs, a, 0);
    }
  }

  /** The search of `pickWinner()` (app.js:226-232) over the segments it has made
      sure exist (app.js:225, the rebuild is Wheel.FindWinner). */
  function PickWinner(segments: seq<Segment>, angle: real): Segment
    requires |segments| > 0
  {
    segments[WinnerIndex(segments, Norm(angle))]
  }

  /** `pickWinner` returns one of the segments: the first, in list order, whose
      wrap-aware interval contains the normalised angle, or `segments[0]` when none
      does. */
  lemma PickWinnerSpec(segments: seq<Segment>, angle: real)
    requires |segments| > 0
    ensures PickWinner(segments, angle) in segments
    ensures var w := PickWinner(segments, angle);
      (exists j :: 0 <= j < |segments| && Hit(segments[j], Norm(angle))) ==>
        && Hit(w, Norm(angle))
        && exists k :: 0 <= k < |segments| && w == segments[k] && forall j :: 0 <= j < k ==> !Hit(segments[j], Norm(angle))
    ensures (forall j :: 0 <= j < |segments| ==> !Hit(segments[j], Norm(angle))) ==>
      PickWinner(segments, angle) == segments[0]
  {
    WinnerIndexSpec(segments, Norm(angle));
  }

  /** Angles naming the same direction pick the same winner: the result depends
      only on Norm(angle). */
  lemma PickWinnerCongruent(segments: seq<Segment>, a1: real, a2: real)
    requires |segments| > 0 && Congruent(a1, a2)
    ensures PickWinner(segments, a1) == PickWinner(segments, a2)
  {
    NormCongruent(a1, a2);
  }

  /** Turning the wheel by whole turns does not change the winner. */
  lemma PickWinnerPeriodic(segments: seq<Segment>, angle: real, k: int)
    requires |segments| > 0
    ensures PickWinner(segments, angle + k as real * TAU) == PickWinner(segments, angle)
  {
    NormPeriodic(angle, k);
  }

  /** The case analysis behind HitIff, on plain numbers: S and E are the normalised
      start and end, D how far a lies past S around the circle. */
  lemma HitCases(S: real, E: real, D: real, arc: real, a: real)
    requires 0.0 <= S < TAU && 0.0 < arc <= TAU && 0.0 <= a < TAU
    requires E == if S + arc < TAU then S + arc else S + arc - TAU
    requires D == if a >= S then a - S else a - S + TAU
    ensures (if S < E then S <= a < E else a >= S || a < E) <==> D < arc
  {
  }

  /** Where a segment of width at most one turn ends, normalised. */
  lemma NormEnd(s: Segment)
    requires 0.0 < s.arc <= TAU
    ensures var S := Norm(s.start);
      Norm(s.start + s.arc) == if S + s.arc < TAU then S + s.arc else S + s.arc - TAU
  {
    NormAdd(s.start, s.arc);
    NormNearTurn(Norm(s.start) + s.arc);
  }

  /** How far the normalised angle a lies past the start of s, around the circle. */
  lemma NormPast(s: Segment, a: real)
    requires 0.0 <= a < TAU
    ensures var S := Norm(s.start);
      Norm(a - s.start) == if a >= S then a - S else a - S + TAU
  {
    NormSub(a, s.start);
    NormNearTurn(a - Norm(s.start));
  }

  /** The wrap-aware test is membership in the half-open arc [start, start + arc)
      read around the circle: a lies less than one arc past the start. */
  lemma HitIff(s: Segment, a: real)
    requires 0.0 < s.arc <= TAU && 0.0 <= a < TAU
    ensures Hit(s, a) <==> Norm(a - s.start) < s.arc
  {
    NormEnd(s);
    NormPast(s, a);
    HitCases(Norm(s.start), Norm(s.start + s.arc), Norm(a - s.start), s.arc, a);
  }

  /** A segment starting off past the pointer, and ending within the turn, is hit
      exactly when the angle measured from the pointer lies in [off, off + arc). */
  lemma SliceHitIff(s: Segment, off: real, a: real)
    requires s.start == POINTER_ANGLE + off
    requires 0.0 <= off && 0.0 < s.arc && off + s.arc <= TAU && 0.0 <= a < TAU
    ensures Hit(s, a) <==> off <= Norm(a - POINTER_ANGLE) < off + s.arc
  {
    var y := Norm(a - POINTER_ANGLE);
    HitIff(s, a);
    assert a - s.start == (a - POINTER_ANGLE) + -off;
    NormAdd(a - POINTER_ANGLE, -off);
    NormNearTurn(y + -off);
    SliceCases(Norm(a - s.start), y, off, s.arc);
  }

  lemma SliceCases(d: real, y: real, off: real, arc: real)
    requires 0.0 <= y < TAU && 0.0 <= off && 0.0 < arc && off + arc <= TAU
    requires d == if y + -off < 0.0 then y + -off + TAU else y + -off
    ensures d < arc <==> off <= y < off + arc
  {
  }

  /** Along a tiling, a later segment starts no earlier than an earlier one ends. */
  lemma {:induction false} TilingOrder(segs: seq<Segment>, i: nat, j: nat)
    requires Tiling(segs) && i < j < |segs|
    ensures segs[i].start + segs[0].arc <= segs[j].start
    decreases j - i
  {
    if i + 1 < j {
      TilingOrder(segs, i + 1, j);
    }
  }

  /** Every segment of a tiling lies within the turn that starts at the pointer. */
  lemma TilingWithinTurn(segs: seq<Segment>, i: nat)
    requires Tiling(segs) && i < |segs|
    ensures POINTER_ANGLE <= segs[i].start && segs[i].start + segs[0].arc <= POINTER_ANGLE + TAU
    ensures segs[0].arc <= TAU
  {
    var n := |segs|;
    if 0 < i {
      TilingOrder(segs, 0, i);
    }
    if i < n - 1 {
      TilingOrder(segs, i, n - 1);
    }
    if 0 < n - 1 {
      TilingOrder(segs, 0, n - 1);
    }
  }

  /** Segment i of a tiling is hit exactly when the angle, measured from the pointer,
      lies in its arc. */
  lemma TilingHitIff(segs: seq<Segment>, i: nat, a: real)
    requires Tiling(segs) && i < |segs| && 0.0 <= a < TAU
    ensures Hit(segs[i], a) <==>
      segs[i].start - POINTER_ANGLE <= Norm(a - POINTER_ANGLE) < segs[i].start - POINTER_ANGLE + segs[0].arc
  {
    TilingWithinTurn(segs, i);
    SliceHitIff(segs[i], segs[i].start - POINTER_ANGLE, a);
  }

  /** Some segment at or after i is hit once the angle is past the start of segment i. */
  lemma {:induction false} HitFrom(segs: seq<Segment>, i: nat, a: real)
    requires Tiling(segs) && i < |segs| && 0.0 <= a < TAU
    requires segs[i].start - POINTER_ANGLE <= Norm(a - POINTER_ANGLE)
    ensures exists j :: i <= j < |segs| && Hit(segs[j], a)
    decreases |segs| - i
  {
    TilingHitIff(segs, i, a);
    if !Hit(segs[i], a) {
      HitFrom(segs, i + 1, a);
    }
  }

  /** In a tiling every angle of the turn lies in exactly one segment. */
  lemma ExactlyOneHit(segs: seq<Segment>, a: real)
    requires Tiling(segs) && 0.0 <= a < TAU
    ensures exists i :: 0 <= i < |segs| && Hit(segs[i], a)
    ensures forall i, j :: 0 <= i < |segs| && 0 <= j < |segs| && Hit(segs[i], a) && Hit(segs[j], a) ==> i == j
  {
    HitFrom(segs, 0, a);
    forall i, j | 0 <= i < |segs| && 0 <= j < |segs| && Hit(segs[i], a) && Hit(segs[j], a)
      ensures i == j
    {
      TilingHitIff(segs, i, a);
      TilingHitIff(segs, j, a);
      if i < j {
        TilingOrder(segs, i, j);
      } else if j < i {
        TilingOrder(segs, j, i);
      }
    }
  }

  /** On a tiling `pickWinner` returns the one segment that contains the normalised
      angle; measured from the pointer, that angle lies in the winner's arc. */
  lemma PickWinnerTiling(segs: seq<Segment>, angle: real)
    requires Tiling(segs)
    ensures var k := WinnerIndex(segs, Norm(angle));
      && PickWinner(segs, angle) == segs[k]
      && Hit(segs[k], Norm(angle))
      && (forall j :: 0 <= j < |segs| && Hit(segs[j], Norm(angle)) ==> j == k)
      && segs[k].start - POINTER_ANGLE <= Norm(angle - POINTER_ANGLE) < segs[k].start - POINTER_ANGLE + segs[k].arc
  {
    var a := Norm(angle);
    ExactlyOneHit(segs, a);
    WinnerIndexSpec(segs, a);
    var k := WinnerIndex(segs, a);
    TilingHitIff(segs, k, a);
    NormFromPointer(angle);
  }

  /** Measuring from the pointer commutes with normalising the angle. */
  lemma NormFromPointer(angle: real)
    ensures Norm(Norm(angle) - POINTER_ANGLE) == Norm(angle - POINTER_ANGLE)
  {
    NormAdd(angle, -POINTER_ANGLE);
    assert angle - POINTER_ANGLE == angle + -POINTER_ANGLE;
    assert Norm(angle) - POINTER_ANGLE == Norm(angle) + -POINTER_ANGLE;
  }

  /** The middle of a segment, where the settle snap of app.js:119 aims. */
  function Middle(s: Segment): real {
    s.start + s.arc / 2.0
  }

  /** The middle of a segment lies in the segment. */
  lemma MidpointHit(w: Segment)
    requires 0.0 < w.arc <= TAU
    ensures Hit(w, Norm(Middle(w)))
  {
    var mid := Middle(w);
    var m := Norm(mid);
    HitIff(w, m);
    NormAdd(mid, -w.start);
    assert mid + -w.start == w.arc / 2.0;
    assert m - w.start == m + -w.start;
    NormInTurn(w.arc / 2.0);
  }

  /** On a tiling, a segment that contains the normalised angle is the winner. */
  lemma WinnerOfHit(segs: seq<Segment>, angle: real, k: nat)
    requires Tiling(segs) && k < |segs| && Hit(segs[k], Norm(angle))
    ensures PickWinner(segs, angle) == segs[k]
  {
    ExactlyOneHit(segs, Norm(angle));
    WinnerIndexSpec(segs, Norm(angle));
  }

  /** The settle snap keeps the winner: moving the wheel by the shortest turn to the
      middle of the winning segment leaves that segment under the pointer
      (app.js:117-120). */
  lemma SnapKeepsWinner(segs: seq<Segment>, angle: real)
    requires Tiling(segs)
    ensures var w := PickWinner(segs, angle);
      var snapped := angle + ShortAngleDist(angle, Middle(w));
      Congruent(snapped, Middle(w))
      && PickWinner(segs, snapped) == w
  {
    var k := WinnerIndex(segs, Norm(angle));
    var w := segs[k];
    assert PickWinner(segs, angle) == w;
    TilingWithinTurn(segs, k);
    assert 0.0 < w.arc <= TAU;
    var snapped := angle + ShortAngleDist(angle, Middle(w));
    SnapHit(w, angle);
    assert Hit(segs[k], Norm(snapped));
    WinnerOfHit(segs, snapped, k);
  }

  /** The shortest turn to the middle of a segment leaves the wheel pointing into it. */
  lemma SnapHit(w: Segment, angle: real)
    requires 0.0 < w.arc <= TAU
    ensures var snapped := angle + ShortAngleDist(angle, Middle(w));
      Congruent(snapped, Middle(w)) && Hit(w, Norm(snapped))
  {
    var mid := Middle(w);
    var snapped := angle + ShortAngleDist(angle, mid);
    MidpointHit(w);
    NormCongruent(snapped, mid);
  }

  /** The wheel angle after the settle snap of app.js:117-120: the turned angle
      plus the shortest turn to the middle of the winner under the pointer. */
  function Snapped(segments: seq<Segment>, turned: real): real
    requires |segments| > 0
  {
    var w := PickWinner(segments, turned);
    turned + ShortAngleDist(turned, Middle(w))
  }

  /** On segments that tile the turn, as the built ones do (BuiltTiling), the
      settle snap turns the wheel by at most half a turn, onto the middle of one of
      the segments, and that segment stays the winner. */
  lemma SnappedSpec(segs: seq<Segment>, turned: real)
    requires Tiling(segs)
    ensures var w := PickWinner(segs, turned);
      var snapped := Snapped(segs, turned);
      && w in segs
      && -PI <= snapped - turned <= PI
      && Congruent(snapped, Middle(w))
      && PickWinner(segs, snapped) == w
  {
    SnapKeepsWinner(segs, turned);
    assert PickWinner(segs, turned) == segs[WinnerIndex(segs, Norm(turned))];
  }
}
