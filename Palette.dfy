/** The flavour palette that colours the segments: `getFlavors` (app.js:28-38). The
    checkboxes of the page are an input: each is modelled as a FlavorBox holding its
    checked state, its label text and its `data-color` attribute. */
module Palette {
  import opened Text

  datatype Flavor = Flavor(name: string, color: string)

  /** One flavour checkbox of the page: `checked`, the label's text, `data-color`. */
  datatype FlavorBox = FlavorBox(checked: bool, text: string, color: string)

  /** The two flavours used when fewer than two boxes are checked (app.js:34-37). */
  const DEFAULT_FLAVORS: seq<Flavor> := [Flavor("Fresa", "#EA4B62"), Flavor("Lim\U{00F3}n", "#F7E04B")]

  /** How many boxes are checked. */
  function CheckedCount(boxes: seq<FlavorBox>): nat {
    if boxes == [] then 0 else (if boxes[0].checked then 1 else 0) + CheckedCount(boxes[1..])
  }

  /** The checked boxes, in page order, as flavours named by their trimmed label. */
  function ActiveFlavors(boxes: seq<FlavorBox>): (r: seq<Flavor>)
    ensures |r| == CheckedCount(boxes) <= |boxes|
    ensures r == [] <==> forall k :: 0 <= k < |boxes| ==> !boxes[k].checked
  {
    if boxes == [] then []
    else
      var head := if boxes[0].checked then [BoxFlavor(boxes[0])] else [];
      head + ActiveFlavors(boxes[1..])
  }

  /** The flavour a checked box contributes: its trimmed label and its colour. */
  function BoxFlavor(box: FlavorBox): Flavor {
    Flavor(Trim(box.text), box.color)
  }

  /** The active flavours follow the boxes in page order: a box added after the
      others appends its own flavour when it is checked, and nothing otherwise. */
  lemma {:induction false} ActiveFlavorsAppend(boxes: seq<FlavorBox>, box: FlavorBox)
    ensures ActiveFlavors(boxes + [box]) ==
      ActiveFlavors(boxes) + (if box.checked then [BoxFlavor(box)] else [])
  {
    if boxes == [] {
      assert [] + [box] == [box];
      assert [box][1..] == [];
    } else {
      assert (boxes + [box])[1..] == boxes[1..] + [box];
      ActiveFlavorsAppend(boxes[1..], box);
    }
  }

  /** `getFlavors()`: the checked flavours when there are at least two, else the defaults. */
  function GetFlavors(boxes: seq<FlavorBox>): (r: seq<Flavor>)
    ensures |r| >= 2
    ensures CheckedCount(boxes) >= 2 ==> r == ActiveFlavors(boxes)
    ensures CheckedCount(boxes) < 2 ==> r == DEFAULT_FLAVORS
  {
    var active := ActiveFlavors(boxes);
    if |active| >= 2 then active else DEFAULT_FLAVORS
  }

  /** Which flavours are active depends only on the checked boxes: adding an
      unchecked box anywhere changes nothing. */
  lemma {:induction false} UncheckedBoxIgnored(before: seq<FlavorBox>, box: FlavorBox, after: seq<FlavorBox>)
    requires !box.checked
    ensures ActiveFlavors(before + [box] + after) == ActiveFlavors(before + after)
  {
    if before == [] {
      assert (before + [box] + after)[1..] == after;
      assert before + after == after;
    } else {
      assert (before + [box] + after)[1..] == before[1..] + [box] + after;
      assert (before + after)[1..] == before[1..] + after;
      UncheckedBoxIgnored(before[1..], box, after);
    }
  }
}
