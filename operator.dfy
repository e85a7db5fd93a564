/**
 * One run of the operator: assemble the frame buffer, decode it, run the network,
 * collect and suppress candidates per class, draw the survivors, encode the result
 * and emit it on the "Frame" port. Decoding, inference, suppression and encoding are
 * library calls and are passed in as functions; decoding and inference can fail, and
 * a failure aborts the run without output.
 */
module Operator {
  import opened FlowTypes
  import opened FrameInput
  import opened OperatorState
  import opened Detection
  import opened Annotation

  /**
   * A decoded frame: its width (`cols`) and height (`rows`) in pixels, which the box
   * geometry uses, and its picture, which only the library calls look at.
   */
  datatype Image = Image(cols: nat, rows: nat, pixels: seq<byte>)

  /** Why a run ends without output. */
  datatype RunError =
    | DecodeError     // the buffer is empty or is not an image, so there is no frame to work on
    | InferenceError  // the forward pass raised

  /** The indices suppression keeps, class by class, for the candidates of `rows`. */
  function AllSurvivors(rows: seq<Row>, numClasses: nat, cols: nat, frameRows: nat, nms: Suppressor): (r: seq<seq<int>>)
    requires Fits(rows, numClasses)
    ensures |r| == numClasses
  {
    Survivors(AllBoxes(rows, numClasses, cols, frameRows), AllScores(rows, numClasses), nms)
  }

  lemma AllAligned(rows: seq<Row>, classes: seq<string>, cols: nat, frameRows: nat, nms: Suppressor)
    requires Fits(rows, |classes|) && NmsContract(nms)
    ensures Aligned(AllBoxes(rows, |classes|, cols, frameRows), AllScores(rows, |classes|),
                    AllSurvivors(rows, |classes|, cols, frameRows, nms), classes)
  {
    forall c | 0 <= c < |classes|
      ensures |ClassScores(rows, c, CONFIDENCE_THRESHOLD)| == |ClassBoxes(rows, c, cols, frameRows, CONFIDENCE_THRESHOLD)|
    {
      BucketLengths(rows, c, cols, frameRows, CONFIDENCE_THRESHOLD);
    }
  }

  /** The detections drawn for the output rows of the network, as a function of its rows. */
  ghost function Detections(rows: seq<Row>, classes: seq<string>, cols: nat, frameRows: nat, nms: Suppressor): seq<Mark>
    requires Fits(rows, |classes|) && NmsContract(nms)
  {
    AllAligned(rows, classes, cols, frameRows, nms);
    MarksOf(AllBoxes(rows, |classes|, cols, frameRows), AllScores(rows, |classes|),
            AllSurvivors(rows, |classes|, cols, frameRows, nms), classes, |classes|)
  }

  /**
   * Every drawn label carries a score that reaches the confidence threshold, and the
   * number of drawn detections is the total number of survivors over all classes.
   */
  lemma DetectionsMeetThreshold(rows: seq<Row>, classes: seq<string>, cols: nat, frameRows: nat, nms: Suppressor)
    requires Fits(rows, |classes|) && NmsContract(nms)
    ensures forall m :: m in Detections(rows, classes, cols, frameRows, nms) ==> m.score >= CONFIDENCE_THRESHOLD
    ensures |Detections(rows, classes, cols, frameRows, nms)| == Total(AllSurvivors(rows, |classes|, cols, frameRows, nms), |classes|)
  {
    var scores := AllScores(rows, |classes|);
    forall c, k | 0 <= c < |scores| && 0 <= k < |scores[c]| ensures scores[c][k] >= CONFIDENCE_THRESHOLD {
      ScoresMeetThreshold(rows, c, CONFIDENCE_THRESHOLD);
    }
    AllAligned(rows, classes, cols, frameRows, nms);
    MarksMeetThreshold(AllBoxes(rows, |classes|, cols, frameRows), scores,
                       AllSurvivors(rows, |classes|, cols, frameRows, nms), classes, |classes|, CONFIDENCE_THRESHOLD);
  }

  /** The frame a buffer decodes to: none for an empty buffer, which the decoder rejects. */
  function DecodedFrame(buffer: seq<byte>, decode: seq<byte> -> Option<Image>): Option<Image>
  {
    if buffer == [] then None else decode(buffer)
  }

  /** Without an input on the "Frame" port the buffer is empty and there is no frame to decode. */
  lemma NoFrameInputNoFrame(inputs: seq<Input>, decode: seq<byte> -> Option<Image>)
    requires forall i :: 0 <= i < |inputs| ==> inputs[i].portId != FRAME_PORT
    ensures DecodedFrame(FrameBytes(inputs), decode) == None
  {
    FrameBytesWithoutFrames(inputs);
  }

  /**
   * One activation of the operator. `decode` stands for the image decoder (None when the
   * bytes are not an image), `forward` for inference on the named output layers (None when
   * it raises), `nms` for non-maximum suppression, `encode` for drawing `marks` and the
   * summary onto the frame and encoding it as JPEG, and `elapsedMicros` for the measured
   * duration of the forward pass.
   */
  method Run(state: State, inputs: seq<Input>, decode: seq<byte> -> Option<Image>,
             forward: (Image, seq<string>) -> Option<seq<Tensor>>, elapsedMicros: int, nms: Suppressor,
             encode: (Image, seq<Mark>, Summary) -> seq<byte>)
    returns (result: Result<seq<Output>, RunError>)
    requires state.Valid()
    requires NmsContract(nms)
    requires var frame := DecodedFrame(FrameBytes(inputs), decode);
             frame.Some? && forward(frame.value, state.outputs).Some? ==>
               Fits(AllRows(forward(frame.value, state.outputs).value), state.numClasses)
    ensures FrameBytes(inputs) == [] ==> result == Err(DecodeError)
    ensures var frame := DecodedFrame(FrameBytes(inputs), decode);
            frame.None? ==> result == Err(DecodeError)
    ensures var frame := DecodedFrame(FrameBytes(inputs), decode);
            frame.Some? && forward(frame.value, state.outputs).None? ==> result == Err(InferenceError)
    ensures var frame := DecodedFrame(FrameBytes(inputs), decode);
            frame.Some? && forward(frame.value, state.outputs).Some? ==>
              var img := frame.value;
              var marks := Detections(AllRows(forward(img, state.outputs).value), state.classes, img.cols, img.rows, nms);
              result == Ok([Output(FRAME_PORT, encode(img, marks, Summary(elapsedMicros, |marks|)))])
  {
    var buffer := GetFrameInput(inputs);
    if buffer == [] {
      return Err(DecodeError);
    }
    var decoded := decode(buffer);
    if decoded.None? {
      return Err(DecodeError);
    }
    var frame := decoded.value;
    var forwarded := forward(frame, state.outputs);
    if forwarded.None? {
      return Err(InferenceError);
    }
    var detections := forwarded.value;
    ghost var rows := AllRows(detections);
    var numClasses := state.numClasses;
    var boxes, scores := CollectCandidates(detections, numClasses, frame.cols, frame.rows);
    var indices := SuppressPerClass(boxes, scores, nms);
    assert indices[..] == AllSurvivors(rows, numClasses, frame.cols, frame.rows, nms);
    AllAligned(rows, state.classes, frame.cols, frame.rows, nms);
    var detected, marks := Annotate(boxes, scores, indices, state.classes, numClasses);
    var encoded := encode(frame, marks, Summary(elapsedMicros, detected));
    result := Ok([Output(FRAME_PORT, encoded)]);
  }
}
