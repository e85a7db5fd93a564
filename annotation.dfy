/**
 * What the operator draws for the detections that survive suppression: one outlined
 * rectangle and one "<class>: <score>" label per survivor, coloured by class, and a
 * summary label with the inference time and the number of detections.
 */
module Annotation {
  import opened Detection

  /** A drawing colour, channels in OpenCV's blue, green, red order. */
  datatype Color = Color(blue: int, green: int, red: int)

  /** The fixed palette the class colours cycle through. */
  const PALETTE: seq<Color> := [Color(0, 255, 0), Color(255, 255, 0), Color(0, 255, 255), Color(255, 0, 0)]

  const NUM_COLORS: nat := |PALETTE|

  /** The palette position of class `c`: the class index modulo the palette size. */
  function PaletteIndex(c: nat): (k: nat)
    ensures k < NUM_COLORS && k < 4
    ensures k == c || c >= NUM_COLORS
  {
    c % NUM_COLORS
  }

  /** The colour class `c` is drawn in. */
  function ColorOf(c: nat): (color: Color)
    ensures color in PALETTE
  {
    PALETTE[PaletteIndex(c)]
  }

  /** Colours repeat with the palette's period: classes `c` and `c + 4` share a colour. */
  lemma ColorCycles(c: nat)
    ensures ColorOf(c + NUM_COLORS) == ColorOf(c)
    ensures NUM_COLORS == 4
  {
    assert (c + NUM_COLORS) % NUM_COLORS == c % NUM_COLORS;
  }

  /**
   * One drawn detection: the rectangle outline in the class colour, and the label naming
   * the class and the score, drawn on a background of the same colour above the corner.
   */
  datatype Mark = Mark(rect: Rect, color: Color, className: string, score: real)

  /** The summary label: inference time in microseconds and the count of drawn detections. */
  datatype Summary = Summary(elapsedMicros: int, detected: int)

  /**
   * Per-class lists as suppression leaves them: boxes and scores of equal length per
   * class, surviving indices that are positions in them, and one class name per class.
   */
  ghost predicate Aligned(boxes: seq<seq<Rect>>, scores: seq<seq<real>>, indices: seq<seq<int>>, classes: seq<string>)
  {
    && |boxes| == |classes| && |scores| == |classes| && |indices| == |classes|
    && forall c :: 0 <= c < |indices| ==> |scores[c]| == |boxes[c]| && InRange(indices[c], |boxes[c]|)
  }

  /** The marks of one class: one per surviving index, in the order suppression returned them. */
  function ClassMarks(boxes: seq<Rect>, scores: seq<real>, indices: seq<int>, c: nat, name: string): (marks: seq<Mark>)
    requires |scores| == |boxes| && InRange(indices, |boxes|)
    ensures |marks| == |indices|
  {
    if indices == [] then []
    else
      var last := |indices| - 1;
      var idx := indices[last];
      ClassMarks(boxes, scores, indices[..last], c, name) + [Mark(boxes[idx], ColorOf(c), name, scores[idx])]
  }

  /** The number of surviving indices over classes `0 .. n - 1`. */
  function Total(indices: seq<seq<int>>, n: nat): nat
    requires n <= |indices|
  {
    if n == 0 then 0 else Total(indices, n - 1) + |indices[n - 1]|
  }

  /** The marks of classes `0 .. n - 1`, class after class. */
  function MarksOf(boxes: seq<seq<Rect>>, scores: seq<seq<real>>, indices: seq<seq<int>>, classes: seq<string>, n: nat): (marks: seq<Mark>)
    requires Aligned(boxes, scores, indices, classes) && n <= |classes|
    ensures |marks| == Total(indices, n)
  {
    if n == 0 then []
    else
      MarksOf(boxes, scores, indices, classes, n - 1)
        + ClassMarks(boxes[n - 1], scores[n - 1], indices[n - 1], n - 1, classes[n - 1])
  }

  lemma {:induction false} ClassMarksAt(boxes: seq<Rect>, scores: seq<real>, indices: seq<int>, c: nat, name: string, i: nat)
    requires |scores| == |boxes| && InRange(indices, |boxes|) && i < |indices|
    ensures ClassMarks(boxes, scores, indices, c, name)[i]
      == Mark(boxes[indices[i]], ColorOf(c), name, scores[indices[i]])
  {
    var last := |indices| - 1;
    if i < last {
      ClassMarksAt(boxes, scores, indices[..last], c, name, i);
    }
  }

  lemma {:induction false} TotalGrows(indices: seq<seq<int>>, c: nat, n: nat)
    requires c < n <= |indices|
    ensures Total(indices, c) + |indices[c]| <= Total(indices, n)
  {
    if c < n - 1 {
      TotalGrows(indices, c, n - 1);
    }
  }

  /**
   * The marks of class `c` form one block, starting after the marks of the lower classes:
   * its i-th mark is the box and score at the i-th surviving index, in the class's colour
   * and with the class's name.
   */
  lemma {:induction false} MarkAt(boxes: seq<seq<Rect>>, scores: seq<seq<real>>, indices: seq<seq<int>>, classes: seq<string>, n: nat, c: nat, i: nat)
    requires Aligned(boxes, scores, indices, classes) && n <= |classes|
    requires c < n && i < |indices[c]|
    ensures Total(indices, c) + i < Total(indices, n)
    ensures var idx := indices[c][i];
      MarksOf(boxes, scores, indices, classes, n)[Total(indices, c) + i]
        == Mark(boxes[c][idx], ColorOf(c), classes[c], scores[c][idx])
  {
    TotalGrows(indices, c, n);
    if c < n - 1 {
      MarkAt(boxes, scores, indices, classes, n - 1, c, i);
      TotalGrows(indices, c, n - 1);
    } else {
      ClassMarksAt(boxes[c], scores[c], indices[c], c, classes[c], i);
    }
  }

  lemma {:induction false} ClassMarksMeetThreshold(boxes: seq<Rect>, scores: seq<real>, indices: seq<int>, c: nat, name: string, threshold: real)
    requires |scores| == |boxes| && InRange(indices, |boxes|)
    requires forall k :: 0 <= k < |scores| ==> scores[k] >= threshold
    ensures forall m :: m in ClassMarks(boxes, scores, indices, c, name) ==> m.score >= threshold
  {
    if indices != [] {
      ClassMarksMeetThreshold(boxes, scores, indices[..|indices| - 1], c, name, threshold);
    }
  }

  /** When every candidate score reaches a threshold, so does the score on every drawn label. */
  lemma {:induction false} MarksMeetThreshold(boxes: seq<seq<Rect>>, scores: seq<seq<real>>, indices: seq<seq<int>>, classes: seq<string>, n: nat, threshold: real)
    requires Aligned(boxes, scores, indices, classes) && n <= |classes|
    requires forall c, k :: 0 <= c < |scores| && 0 <= k < |scores[c]| ==> scores[c][k] >= threshold
    ensures forall m :: m in MarksOf(boxes, scores, indices, classes, n) ==> m.score >= threshold
  {
    if n > 0 {
      MarksMeetThreshold(boxes, scores, indices, classes, n - 1, threshold);
      ClassMarksMeetThreshold(boxes[n - 1], scores[n - 1], indices[n - 1], n - 1, classes[n - 1], threshold);
    }
  }

  /**
   * Draws every survivor of every class, counting them. The marks are the drawing
   * commands in the order they are issued; `detected` is the count the summary reports.
   */
  method Annotate(boxes: array<seq<Rect>>, scores: array<seq<real>>, indices: array<seq<int>>, classes: seq<string>, numClasses: nat)
    returns (detected: int, marks: seq<Mark>)
    requires numClasses == |classes|
    requires Aligned(boxes[..], scores[..], indices[..], classes)
    ensures marks == MarksOf(boxes[..], scores[..], indices[..], classes, numClasses)
    ensures detected == Total(indices[..], numClasses) && detected == |marks|
  {
    ghost var sb, ss, si := boxes[..], scores[..], indices[..];
    detected := 0;
    marks := [];
    for c := 0 to numClasses
      invariant detected == Total(si, c)
      invariant marks == MarksOf(sb, ss, si, classes, c)
    {
      ghost var before := marks;
      assert indices[c][..0] == [];
      for i := 0 to |indices[c]|
        invariant detected == Total(si, c) + i
        invariant marks == before + ClassMarks(sb[c], ss[c], si[c][..i], c, classes[c])
      {
        var color := ColorOf(c);
        var idx := indices[c][i];
        var rect := boxes[c][idx];
        marks := marks + [Mark(rect, color, classes[c], scores[c][idx])];
        detected := detected + 1;
        assert si[c][..i + 1][..i] == si[c][..i];
      }
      assert si[c][..|si[c]|] == si[c];
    }
  }
}
