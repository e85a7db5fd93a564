/**
 * Turning raw detector output into per-class candidate lists, and the per-class
 * non-maximum-suppression step that selects the survivors.
 */
module Detection {

  /**
   * One row of a raw output tensor: normalised centre x, centre y, width, height,
   * an objectness column the operator never reads, then one score per class.
   */
  type Row = seq<real>

  /** A raw output tensor of the network, one row per proposed box. */
  type Tensor = seq<Row>

  /** Minimum score a row needs in a class column to become a candidate of that class. */
  const CONFIDENCE_THRESHOLD: real := 0.0

  /** Overlap ratio above which non-maximum suppression drops a candidate. */
  const NMS_THRESHOLD: real := 0.4

  /** Score threshold handed to non-maximum suppression (the candidates are already filtered). */
  const NMS_SCORE_THRESHOLD: real := 0.0

  /** Column of the first class score; columns 0-3 are the box and column 4 is skipped. */
  const FIRST_SCORE_COLUMN: nat := 5

  /** An axis-aligned rectangle in pixel coordinates: top-left corner and size. */
  datatype Rect = Rect(x: real, y: real, width: real, height: real)

  /**
   * The columns the operator reads from a row exist: the four box columns always, and the
   * score columns of all `numClasses` classes when there is at least one class.
   */
  predicate RowFits(row: Row, numClasses: nat)
  {
    4 <= |row| && (numClasses > 0 ==> FIRST_SCORE_COLUMN + numClasses <= |row|)
  }

  /**
   * Every row has the columns the operator reads: `RowFits` of each row. The condition is
   * written out rather than called so that the quantifier is triggered on membership alone
   * and its instances are available wherever a row of `rows` is indexed.
   */
  ghost predicate Fits(rows: seq<Row>, numClasses: nat)
  {
    forall row :: row in rows ==> 4 <= |row| && (numClasses > 0 ==> FIRST_SCORE_COLUMN + numClasses <= |row|)
  }

  /** The score that `row` gives class `c`. */
  function Score(row: Row, c: nat): real
    requires FIRST_SCORE_COLUMN + c < |row|
  {
    row[FIRST_SCORE_COLUMN + c]
  }

  /**
   * The pixel rectangle of a row on a `cols` x `rows` frame: the normalised centre and
   * size are scaled by the frame's width and height, and the corner is moved back by
   * half the size.
   */
  function BoxOf(row: Row, cols: nat, rows: nat): (r: Rect)
    requires 4 <= |row|
    ensures r.width == row[2] * cols as real && r.height == row[3] * rows as real
    ensures r.x + r.width / 2.0 == row[0] * cols as real
    ensures r.y + r.height / 2.0 == row[1] * rows as real
  {
    var x := row[0] * cols as real;
    var y := row[1] * rows as real;
    var width := row[2] * cols as real;
    var height := row[3] * rows as real;
    Rect(x - width / 2.0, y - height / 2.0, width, height)
  }

  /** The rows of all tensors, tensor after tensor, each tensor's rows in order. */
  function AllRows(detections: seq<Tensor>): seq<Row>
  {
    if detections == [] then []
    else AllRows(detections[..|detections| - 1]) + detections[|detections| - 1]
  }

  /** The number of rows over all tensors. */
  function TotalRows(detections: seq<Tensor>): nat
  {
    if detections == [] then 0 else |detections[0]| + TotalRows(detections[1..])
  }

  /** Positions, in `rows`, of the rows whose score for class `c` reaches `threshold`. */
  function Kept(rows: seq<Row>, c: nat, threshold: real): seq<nat>
    requires Fits(rows, c + 1)
  {
    if rows == [] then []
    else
      var last := |rows| - 1;
      Kept(rows[..last], c, threshold) + (if Score(rows[last], c) >= threshold then [last] else [])
  }

  /** The candidate rectangles of class `c`: one per row whose class-`c` score reaches the threshold. */
  function ClassBoxes(rows: seq<Row>, c: nat, cols: nat, frameRows: nat, threshold: real): seq<Rect>
    requires Fits(rows, c + 1)
  {
    if rows == [] then []
    else
      var last := |rows| - 1;
      ClassBoxes(rows[..last], c, cols, frameRows, threshold)
        + (if Score(rows[last], c) >= threshold then [BoxOf(rows[last], cols, frameRows)] else [])
  }

  /** The candidate scores of class `c`, parallel to `ClassBoxes`. */
  function ClassScores(rows: seq<Row>, c: nat, threshold: real): seq<real>
    requires Fits(rows, c + 1)
  {
    if rows == [] then []
    else
      var last := |rows| - 1;
      ClassScores(rows[..last], c, threshold)
        + (if Score(rows[last], c) >= threshold then [Score(rows[last], c)] else [])
  }

  /** Appending a row extends each class's candidates by that row's pair exactly when it passes. */
  lemma ClassStep(rows: seq<Row>, row: Row, c: nat, cols: nat, frameRows: nat, threshold: real)
    requires Fits(rows + [row], c + 1)
    ensures Fits(rows, c + 1)
    ensures ClassBoxes(rows + [row], c, cols, frameRows, threshold)
      == ClassBoxes(rows, c, cols, frameRows, threshold)
         + (if Score(row, c) >= threshold then [BoxOf(row, cols, frameRows)] else [])
    ensures ClassScores(rows + [row], c, threshold)
      == ClassScores(rows, c, threshold) + (if Score(row, c) >= threshold then [Score(row, c)] else [])
  {
    assert (rows + [row])[..|rows|] == rows;
    assert (rows + [row])[|rows|] == row;
  }

  /** Every recorded score of a class reaches the confidence threshold. */
  lemma {:induction false} ScoresMeetThreshold(rows: seq<Row>, c: nat, threshold: real)
    requires Fits(rows, c + 1)
    ensures forall k :: 0 <= k < |ClassScores(rows, c, threshold)| ==> ClassScores(rows, c, threshold)[k] >= threshold
  {
    if rows != [] {
      ScoresMeetThreshold(rows[..|rows| - 1], c, threshold);
    }
  }

  /**
   * A row is kept for class `c` exactly when its class-`c` score reaches the threshold,
   * and the kept positions are listed in increasing row order.
   */
  lemma {:induction false} KeptSpec(rows: seq<Row>, c: nat, threshold: real)
    requires Fits(rows, c + 1)
    ensures forall i :: i in Kept(rows, c, threshold) <==> 0 <= i < |rows| && Score(rows[i], c) >= threshold
    ensures forall j, k :: 0 <= j < k < |Kept(rows, c, threshold)| ==> Kept(rows, c, threshold)[j] < Kept(rows, c, threshold)[k]
  {
    if rows != [] {
      var last := |rows| - 1;
      var prefix := rows[..last];
      KeptSpec(prefix, c, threshold);
      forall i | 0 <= i < last ensures rows[i] == prefix[i] { }
      var before := Kept(prefix, c, threshold);
      var kept := Kept(rows, c, threshold);
      forall j, k | 0 <= j < k < |kept| ensures kept[j] < kept[k] {
        if k < |before| {
          assert kept[j] == before[j] && kept[k] == before[k];
        } else {
          assert kept[k] == last;
          assert kept[j] == before[j] && before[j] in before;
        }
      }
    }
  }

  /**
   * The k-th candidate of class `c` is the box and class-`c` score of the k-th kept row:
   * boxes and scores stay parallel, and a row's rectangle is the same in every class it
   * passes for.
   */
  lemma {:induction false} BucketAt(rows: seq<Row>, c: nat, cols: nat, frameRows: nat, threshold: real)
    requires Fits(rows, c + 1)
    ensures |ClassBoxes(rows, c, cols, frameRows, threshold)| == |Kept(rows, c, threshold)|
    ensures |ClassScores(rows, c, threshold)| == |Kept(rows, c, threshold)|
    ensures forall k :: 0 <= k < |Kept(rows, c, threshold)| ==>
      var i := Kept(rows, c, threshold)[k];
      i < |rows|
      && ClassBoxes(rows, c, cols, frameRows, threshold)[k] == BoxOf(rows[i], cols, frameRows)
      && ClassScores(rows, c, threshold)[k] == Score(rows[i], c)
  {
    if rows != [] {
      var last := |rows| - 1;
      var prefix := rows[..last];
      BucketAt(prefix, c, cols, frameRows, threshold);
      forall i | 0 <= i < last ensures rows[i] == prefix[i] { }
    }
  }

  /** The boxes and scores of one class always have the same length. */
  lemma BucketLengths(rows: seq<Row>, c: nat, cols: nat, frameRows: nat, threshold: real)
    requires Fits(rows, c + 1)
    ensures |ClassBoxes(rows, c, cols, frameRows, threshold)| == |ClassScores(rows, c, threshold)|
  {
    BucketAt(rows, c, cols, frameRows, threshold);
  }

  /** A row passing for two classes contributes the same rectangle to both. */
  lemma SharedRect(rows: seq<Row>, c1: nat, c2: nat, k1: nat, k2: nat, cols: nat, frameRows: nat, threshold: real)
    requires Fits(rows, c1 + 1) && Fits(rows, c2 + 1)
    requires k1 < |Kept(rows, c1, threshold)| && k2 < |Kept(rows, c2, threshold)|
    requires Kept(rows, c1, threshold)[k1] == Kept(rows, c2, threshold)[k2]
    ensures k1 < |ClassBoxes(rows, c1, cols, frameRows, threshold)| && k2 < |ClassBoxes(rows, c2, cols, frameRows, threshold)|
    ensures ClassBoxes(rows, c1, cols, frameRows, threshold)[k1] == ClassBoxes(rows, c2, cols, frameRows, threshold)[k2]
  {
    BucketAt(rows, c1, cols, frameRows, threshold);
    BucketAt(rows, c2, cols, frameRows, threshold);
  }

  /** When every row reaches the threshold for class `c`, every row becomes a candidate, in row order. */
  lemma {:induction false} AllPass(rows: seq<Row>, c: nat, cols: nat, frameRows: nat, threshold: real)
    requires Fits(rows, c + 1)
    requires forall i :: 0 <= i < |rows| ==> Score(rows[i], c) >= threshold
    ensures |ClassBoxes(rows, c, cols, frameRows, threshold)| == |rows|
    ensures |ClassScores(rows, c, threshold)| == |rows|
    ensures forall i :: 0 <= i < |rows| ==>
      ClassBoxes(rows, c, cols, frameRows, threshold)[i] == BoxOf(rows[i], cols, frameRows)
      && ClassScores(rows, c, threshold)[i] == Score(rows[i], c)
  {
    if rows != [] {
      var last := |rows| - 1;
      var prefix := rows[..last];
      AllPass(prefix, c, cols, frameRows, threshold);
      var boxes := ClassBoxes(rows, c, cols, frameRows, threshold);
      var scores := ClassScores(rows, c, threshold);
      assert boxes == ClassBoxes(prefix, c, cols, frameRows, threshold) + [BoxOf(rows[last], cols, frameRows)];
      assert scores == ClassScores(prefix, c, threshold) + [Score(rows[last], c)];
      forall i | 0 <= i < |rows|
        ensures boxes[i] == BoxOf(rows[i], cols, frameRows) && scores[i] == Score(rows[i], c)
      {
        if i < last {
          assert rows[i] == prefix[i];
        }
      }
    }
  }

  lemma {:induction false} AllRowsLength(detections: seq<Tensor>)
    ensures |AllRows(detections)| == TotalRows(detections)
  {
    if detections != [] {
      var last := |detections| - 1;
      AllRowsLength(detections[..last]);
      TotalRowsSnoc(detections[..last], detections[last]);
      assert detections[..last] + [detections[last]] == detections;
    }
  }

  lemma {:induction false} TotalRowsSnoc(detections: seq<Tensor>, t: Tensor)
    ensures TotalRows(detections + [t]) == TotalRows(detections) + |t|
  {
    if detections == [] {
      assert ([] + [t])[1..] == [];
    } else {
      assert (detections + [t])[1..] == detections[1..] + [t];
      TotalRowsSnoc(detections[1..], t);
    }
  }

  /**
   * With the operator's threshold of zero and scores that are never negative, every row of
   * every tensor is a candidate of every class.
   */
  lemma ZeroThresholdKeepsEveryRow(detections: seq<Tensor>, c: nat, cols: nat, frameRows: nat)
    requires Fits(AllRows(detections), c + 1)
    requires forall row :: row in AllRows(detections) ==> Score(row, c) >= 0.0
    ensures |ClassBoxes(AllRows(detections), c, cols, frameRows, CONFIDENCE_THRESHOLD)| == TotalRows(detections)
    ensures |ClassScores(AllRows(detections), c, CONFIDENCE_THRESHOLD)| == TotalRows(detections)
  {
    var rows := AllRows(detections);
    forall i | 0 <= i < |rows| ensures Score(rows[i], c) >= CONFIDENCE_THRESHOLD {
      assert rows[i] in rows;
    }
    AllPass(rows, c, cols, frameRows, CONFIDENCE_THRESHOLD);
    AllRowsLength(detections);
  }

  /**
   * A worked case: one row with box (0.5, 0.5, 0.2, 0.2) and class scores 0.9 and 0.1 on a
   * 100 x 100 frame. At threshold 0.5 only class 0 gets a candidate, the rectangle with
   * corner (40, 40) and size 20 x 20; at the operator's threshold of zero both classes do.
   */
  lemma SingleRowScenario()
    ensures var rows: seq<Row> := [[0.5, 0.5, 0.2, 0.2, 0.0, 0.9, 0.1]];
      && ClassBoxes(rows, 0, 100, 100, 0.5) == [Rect(40.0, 40.0, 20.0, 20.0)]
      && ClassScores(rows, 0, 0.5) == [0.9]
      && ClassBoxes(rows, 1, 100, 100, 0.5) == []
      && ClassBoxes(rows, 0, 100, 100, CONFIDENCE_THRESHOLD) == [Rect(40.0, 40.0, 20.0, 20.0)]
      && ClassBoxes(rows, 1, 100, 100, CONFIDENCE_THRESHOLD) == [Rect(40.0, 40.0, 20.0, 20.0)]
  {
    var rows: seq<Row> := [[0.5, 0.5, 0.2, 0.2, 0.0, 0.9, 0.1]];
    assert rows[..0] == [];
  }

  /** Every row of tensor `t` is one of the rows of `AllRows`. */
  lemma {:induction false} TensorRowsInAllRows(detections: seq<Tensor>, t: nat)
    requires t < |detections|
    ensures forall row :: row in detections[t] ==> row in AllRows(detections)
  {
    var last := |detections| - 1;
    if t < last {
      TensorRowsInAllRows(detections[..last], t);
    }
  }

  lemma AllRowsSnoc(detections: seq<Tensor>, t: nat)
    requires t < |detections|
    ensures AllRows(detections[..t + 1]) == AllRows(detections[..t]) + detections[t]
  {
    assert detections[..t + 1][..t] == detections[..t];
  }

  /** The candidate rectangles of every class `0 .. numClasses - 1`. */
  function AllBoxes(rows: seq<Row>, numClasses: nat, cols: nat, frameRows: nat): (r: seq<seq<Rect>>)
    requires Fits(rows, numClasses)
    ensures |r| == numClasses
  {
    seq(numClasses, c requires 0 <= c < numClasses => ClassBoxes(rows, c, cols, frameRows, CONFIDENCE_THRESHOLD))
  }

  /** The candidate scores of every class `0 .. numClasses - 1`. */
  function AllScores(rows: seq<Row>, numClasses: nat): (r: seq<seq<real>>)
    requires Fits(rows, numClasses)
    ensures |r| == numClasses
  {
    seq(numClasses, c requires 0 <= c < numClasses => ClassScores(rows, c, CONFIDENCE_THRESHOLD))
  }

  /**
   * `boxes` and `scores` hold, for every class, the candidates that `rows` yield
   * (element by element; `CandidatesAsSequences` gives the `AllBoxes`/`AllScores` view).
   */
  ghost predicate HoldsCandidates(boxes: array<seq<Rect>>, scores: array<seq<real>>, rows: seq<Row>, cols: nat, frameRows: nat)
    reads boxes, scores
  {
    && boxes.Length == scores.Length
    && Fits(rows, boxes.Length)
    && forall c :: 0 <= c < boxes.Length ==> ClassHolds(boxes[c], scores[c], rows, c, cols, frameRows)
  }

  /**
   * Builds, for every class, the candidate rectangles and scores: for each row of each
   * tensor the row's rectangle is computed once, and for each class whose score column
   * reaches CONFIDENCE_THRESHOLD the rectangle and score are appended to that class's lists.
   */
  method CollectCandidates(detections: seq<Tensor>, numClasses: nat, cols: nat, frameRows: nat)
    returns (boxes: array<seq<Rect>>, scores: array<seq<real>>)
    requires Fits(AllRows(detections), numClasses)
    ensures fresh(boxes) && fresh(scores)
    ensures boxes.Length == numClasses && scores.Length == numClasses
    ensures boxes[..] == AllBoxes(AllRows(detections), numClasses, cols, frameRows)
    ensures scores[..] == AllScores(AllRows(detections), numClasses)
  {
    boxes := new seq<Rect>[numClasses](_ => []);
    scores := new seq<real>[numClasses](_ => []);
    ghost var done: seq<Row> := [];
    for t := 0 to |detections|
      invariant done == AllRows(detections[..t])
      invariant HoldsCandidates(boxes, scores, done, cols, frameRows)
    {
      TensorRowsInAllRows(detections, t);
      AllRowsSnoc(detections, t);
      AddTensor(boxes, scores, detections[t], cols, frameRows, done);
      done := done + detections[t];
    }
    assert detections[..|detections|] == detections;
    CandidatesAsSequences(boxes, scores, done, cols, frameRows);
  }

  /** The middle loop of the collection: the rows of one tensor, in order. */
  method AddTensor(boxes: array<seq<Rect>>, scores: array<seq<real>>, output: Tensor, cols: nat, frameRows: nat, ghost done: seq<Row>)
    requires HoldsCandidates(boxes, scores, done, cols, frameRows)
    requires Fits(output, boxes.Length)
    modifies boxes, scores
    ensures HoldsCandidates(boxes, scores, done + output, cols, frameRows)
  {
    assert done + output[..0] == done;
    for i := 0 to |output|
      invariant HoldsCandidates(boxes, scores, done + output[..i], cols, frameRows)
    {
      assert done + output[..i] + [output[i]] == done + output[..i + 1];
      AddRow(boxes, scores, output[i], cols, frameRows, done + output[..i]);
    }
    assert output[..|output|] == output;
  }

  /** `classBoxes` and `classScores` are the candidates that `rows` yield for class `k`. */
  ghost predicate ClassHolds(classBoxes: seq<Rect>, classScores: seq<real>, rows: seq<Row>, k: nat, cols: nat, frameRows: nat)
  {
    && Fits(rows, k + 1)
    && classBoxes == ClassBoxes(rows, k, cols, frameRows, CONFIDENCE_THRESHOLD)
    && classScores == ClassScores(rows, k, CONFIDENCE_THRESHOLD)
  }

  /** The inner loop of the collection: one row's rectangle, offered to every class in turn. */
  method AddRow(boxes: array<seq<Rect>>, scores: array<seq<real>>, row: Row, cols: nat, frameRows: nat, ghost seen: seq<Row>)
    requires HoldsCandidates(boxes, scores, seen, cols, frameRows)
    requires RowFits(row, boxes.Length)
    modifies boxes, scores
    ensures HoldsCandidates(boxes, scores, seen + [row], cols, frameRows)
  {
    var numClasses := boxes.Length;
    var rect := BoxOf(row, cols, frameRows);
    ghost var after := seen + [row];
    FitsSnoc(seen, row, numClasses);
    forall k | 0 <= k < numClasses ensures ClassHolds(boxes[k], scores[k], seen, k, cols, frameRows) {
      FitsFewer(seen, numClasses, k + 1);
    }
    for c := 0 to numClasses
      invariant forall k :: 0 <= k < c ==> ClassHolds(boxes[k], scores[k], after, k, cols, frameRows)
      invariant forall k :: c <= k < numClasses ==> ClassHolds(boxes[k], scores[k], seen, k, cols, frameRows)
    {
      FitsFewer(after, numClasses, c + 1);
      OfferToClass(boxes, scores, row, rect, c, cols, frameRows, seen);
    }
    assert scores.Length == numClasses;
  }

  /** The body of the inner loop: append the row's rectangle and score to class `c` when the score passes. */
  method OfferToClass(boxes: array<seq<Rect>>, scores: array<seq<real>>, row: Row, rect: Rect, c: nat,
                      cols: nat, frameRows: nat, ghost seen: seq<Row>)
    requires c < boxes.Length && c < scores.Length
    requires ClassHolds(boxes[c], scores[c], seen, c, cols, frameRows)
    requires Fits(seen + [row], c + 1) && rect == BoxOf(row, cols, frameRows)
    modifies boxes, scores
    ensures ClassHolds(boxes[c], scores[c], seen + [row], c, cols, frameRows)
    ensures forall k :: 0 <= k < boxes.Length && k != c ==> boxes[k] == old(boxes[k])
    ensures forall k :: 0 <= k < scores.Length && k != c ==> scores[k] == old(scores[k])
  {
    assert row in seen + [row];
    ClassStep(seen, row, c, cols, frameRows, CONFIDENCE_THRESHOLD);
    var confidence := row[FIRST_SCORE_COLUMN + c];
    if confidence >= CONFIDENCE_THRESHOLD {
      boxes[c] := boxes[c] + [rect];
      scores[c] := scores[c] + [confidence];
    }
  }

  lemma FitsSnoc(rows: seq<Row>, row: Row, numClasses: nat)
    requires Fits(rows, numClasses) && RowFits(row, numClasses)
    ensures Fits(rows + [row], numClasses)
  {
  }

  lemma FitsFewer(rows: seq<Row>, numClasses: nat, fewer: nat)
    requires Fits(rows, numClasses) && 0 < fewer <= numClasses
    ensures Fits(rows, fewer)
  {
  }

  /** `HoldsCandidates` says the arrays' contents are `AllBoxes` and `AllScores` of the rows. */
  lemma CandidatesAsSequences(boxes: array<seq<Rect>>, scores: array<seq<real>>, rows: seq<Row>, cols: nat, frameRows: nat)
    requires HoldsCandidates(boxes, scores, rows, cols, frameRows)
    ensures boxes[..] == AllBoxes(rows, boxes.Length, cols, frameRows)
    ensures scores[..] == AllScores(rows, boxes.Length)
  {
    assert boxes[..] == AllBoxes(rows, boxes.Length, cols, frameRows);
    assert scores[..] == AllScores(rows, boxes.Length);
  }

  /** A function with the signature of the library's non-maximum suppression. */
  type Suppressor = (seq<Rect>, seq<real>, real, real) -> seq<int>

  /** Every index is a position in a list of length `n`. */
  predicate InRange(indices: seq<int>, n: nat)
  {
    forall i :: 0 <= i < |indices| ==> 0 <= indices[i] < n
  }

  /** What the operator relies on from non-maximum suppression: it only returns positions of its input boxes. */
  ghost predicate NmsContract(nms: Suppressor)
  {
    forall b, s, scoreThreshold, nmsThreshold :: InRange(nms(b, s, scoreThreshold, nmsThreshold), |b|)
  }

  /** The indices suppression keeps, class by class, for per-class boxes and scores. */
  function Survivors(boxes: seq<seq<Rect>>, scores: seq<seq<real>>, nms: Suppressor): (r: seq<seq<int>>)
    requires |scores| == |boxes|
    ensures |r| == |boxes|
  {
    seq(|boxes|, c requires 0 <= c < |boxes| => nms(boxes[c], scores[c], NMS_SCORE_THRESHOLD, NMS_THRESHOLD))
  }

  /** Runs non-maximum suppression once per class, on that class's boxes and scores. */
  method SuppressPerClass(boxes: array<seq<Rect>>, scores: array<seq<real>>, nms: Suppressor)
    returns (indices: array<seq<int>>)
    requires boxes.Length == scores.Length
    ensures fresh(indices)
    ensures indices[..] == Survivors(boxes[..], scores[..], nms)
  {
    indices := new seq<int>[boxes.Length](_ => []);
    for c := 0 to boxes.Length
      invariant forall k :: 0 <= k < c ==> indices[k] == nms(boxes[k], scores[k], NMS_SCORE_THRESHOLD, NMS_THRESHOLD)
    {
      indices[c] := nms(boxes[c], scores[c], NMS_SCORE_THRESHOLD, NMS_THRESHOLD);
    }
    assert indices[..] == Survivors(boxes[..], scores[..], nms);
  }
}
