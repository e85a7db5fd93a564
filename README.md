# Object-detection operator: a verified model of its bookkeeping

This project models the zenoh-flow operator in `src/operator.cpp`, which receives encoded frames on the port `"Frame"`, runs a Darknet detector through OpenCV's DNN module, draws the detections that survive non-maximum suppression, and publishes the annotated frame, encoded as JPEG, back on `"Frame"`. The numerical work (decoding, inference, suppression, drawing, encoding) happens inside OpenCV. What the model covers is the logic the operator writes out itself:

- `FrameInput`: building the frame buffer from the inputs that arrived on `"Frame"` (`getFrameInput`).
- `Rules`: the input gate (`input_rule`), meaning all tokens are Ready, and the pass-through output rule (`output_rule`).
- `OperatorState`: the `State` class. Its constructor loads the class list line by line and sets `num_classes` to the class count.
- `Detection`: turning raw output rows into per-class candidate lists (the triple loop in `run`), and calling suppression once per class.
- `Annotation`: what is drawn for each survivor (box, class colour, class name, score), in which order, and the `detected` count.
- `Operator`: one whole `run`, with decode, forward, NMS, encode and the clock passed in as parameters. A run whose buffer cannot be decoded, or whose forward pass fails, ends with an error and no output.

The model's choices:

- Tensors are `seq<seq<real>>`, and scores are `real`. The threshold comparison is what matters here, not float rounding.
- The per-class lists `boxes[c]`, `scores[c]` and `indices[c]` are arrays of sequences (`array<seq<…>>`), matching the C++ arrays of vectors.
- Each method is proved against a specification function: `FrameBytes`, `ClassBoxes`/`ClassScores`, `MarksOf`. Lemmas then state what those functions mean:
  - membership and order of the kept rows;
  - boxes and scores staying parallel;
  - the threshold bound;
  - the block layout of the drawn marks.

Behaviour of the code a reader may not expect:

- When the class-list file cannot be opened, the constructor prints a message and carries on, so the state has zero classes. No load error is raised (`src/operator.cpp:66-71`). The constructor's contract says so.
- The confidence threshold is the compiled-in constant `CONFIDENCE_THRESHOLD = 0` (`src/operator.cpp:56`). It is not a configuration value. The specification functions still take the threshold as an argument, so the lemmas hold for any threshold.
- The operator does not check the shape of a row. It reads columns 0-3 of every row and, for each class `c`, column `5 + c`; column 4 is never read. The model states exactly this as a precondition (`RowFits`, `Fits`): at least 4 columns, and `5 + num_classes` columns when there is at least one class. It adds no error path.

## Model

| member | source | states |
|---|---|---|
| `FrameInput.GetFrameInput` | src/operator.cpp:124-134 | the buffer equals the concatenation, in input order, of the payloads of the inputs on port "Frame" |
| `FrameInput.FrameBytesAppend` | src/operator.cpp:126-132 | the buffer of a concatenated input list is the concatenation of the two lists' buffers |
| `FrameInput.FrameBytesSplit` | src/operator.cpp:126-132 | an input adds its whole payload at its own position when its port is "Frame", and nothing otherwise |
| `FrameInput.FrameBytesLength` | src/operator.cpp:124-134 | the buffer's length is the sum of the payload lengths of the "Frame" inputs |
| `FrameInput.FrameBytesWithoutFrames` | src/operator.cpp:124-134 | with no input on "Frame" the buffer is empty |
| `Rules.InputRule` | src/operator.cpp:145-157 | true iff every token is Ready (so true for no tokens); false shows a token that is not Ready |
| `Rules.AllReadyAppend` | src/operator.cpp:150-156 | a token list is ready iff each of its two parts is ready |
| `Rules.OutputRule` | src/operator.cpp:249-252 | the run's outputs are returned unchanged on a deadline miss |
| `OperatorState.State.constructor` | src/operator.cpp:60-77 | classes are the class-file lines in file order (none if the file cannot be opened); num_classes is their count; outputs are the network's output-layer names; flags is [0] |
| `Detection.BoxOf` | src/operator.cpp:193-197 | the rectangle is centred on the scaled centre, and its size is the normalised size scaled by the frame's width and height |
| `Detection.ClassStep` | src/operator.cpp:199-205 | a row extends class c's boxes and scores by exactly its own rectangle and score when its column 5+c reaches the threshold, and leaves them unchanged otherwise |
| `Detection.ScoresMeetThreshold` | src/operator.cpp:199-205 | every score recorded for a class reaches the threshold |
| `Detection.KeptSpec` | src/operator.cpp:190-207 | a row is kept for class c iff its column 5+c reaches the threshold; kept rows are listed in increasing row order |
| `Detection.BucketAt` | src/operator.cpp:190-207 | the k-th box and score of class c are the rectangle and class-c score of the k-th kept row; boxes, scores and kept rows have equal counts |
| `Detection.BucketLengths` | src/operator.cpp:199-205 | the boxes and scores of every class have the same length |
| `Detection.SharedRect` | src/operator.cpp:197-205 | a row kept for two classes contributes the same rectangle to both |
| `Detection.AllPass` | src/operator.cpp:199-205 | when every row passes for class c, every row becomes a candidate of c, in row order |
| `Detection.ZeroThresholdKeepsEveryRow` | src/operator.cpp:199-205 | with the threshold of 0 (line 56) and non-negative scores, every class receives one candidate per row of every tensor |
| `Detection.AllRowsLength` | src/operator.cpp:190-192 | the rows visited are as many as the tensors' row counts added up |
| `Detection.SingleRowScenario` | src/operator.cpp:193-205 | one row (0.5, 0.5, 0.2, 0.2) with scores 0.9 and 0.1 on a 100x100 frame gives class 0 the rectangle (40, 40, 20, 20) at threshold 0.5 and class 1 nothing; at threshold 0 both classes get it |
| `Detection.AllBoxes` | src/operator.cpp:187 | one candidate-rectangle list per class |
| `Detection.AllScores` | src/operator.cpp:188 | one candidate-score list per class |
| `Detection.CollectCandidates` | src/operator.cpp:186-207 | fresh per-class arrays whose contents are exactly AllBoxes and AllScores of all rows of all tensors, in tensor then row order |
| `Detection.AddTensor` | src/operator.cpp:190-206 | the rows of one tensor extend every class's candidates as if appended to the rows seen so far |
| `Detection.AddRow` | src/operator.cpp:193-205 | one row's rectangle is offered to every class, extending each class's candidates by that row |
| `Detection.OfferToClass` | src/operator.cpp:200-204 | class c's candidates are extended by the row exactly as ClassStep says; no other class's entries change |
| `Detection.CandidatesAsSequences` | src/operator.cpp:186-188 | arrays holding every class's candidates element by element have contents AllBoxes and AllScores |
| `Detection.Survivors` | src/operator.cpp:209 | one surviving-index list per class |
| `Detection.SuppressPerClass` | src/operator.cpp:209 | the fresh array's contents are Survivors of the per-class lists: for each class, what suppression returns for its boxes and scores with score threshold 0.0 and overlap threshold 0.4 |
| `Annotation.PaletteIndex` | src/operator.cpp:215 | the palette position c % NUM_COLORS is below 4, and is c itself for the first four classes |
| `Annotation.ColorOf` | src/operator.cpp:49-55 | every class colour is one of the four palette colours |
| `Annotation.ColorCycles` | src/operator.cpp:49-55 | the palette has four colours, and classes c and c + 4 are drawn in the same colour |
| `Annotation.ClassMarks` | src/operator.cpp:214-229 | a class gets one drawn mark per surviving index |
| `Annotation.ClassMarksAt` | src/operator.cpp:214-221 | the i-th mark of class c is the box and score at the i-th surviving index, in c's colour and with c's name |
| `Annotation.MarksOf` | src/operator.cpp:213-230 | the number of marks is the sum over classes of the surviving-index counts |
| `Annotation.MarkAt` | src/operator.cpp:213-230 | class c's marks form one block after the marks of lower classes, in suppression order, each the surviving box and score in c's colour with c's name |
| `Annotation.ClassMarksMeetThreshold` | src/operator.cpp:214-221 | if all of a class's scores reach a threshold, so does every score on its labels |
| `Annotation.MarksMeetThreshold` | src/operator.cpp:213-230 | if all candidate scores reach a threshold, so does the score on every drawn label |
| `Annotation.Annotate` | src/operator.cpp:211-230 | the marks drawn are MarksOf the per-class lists, and detected equals the total number of surviving indices, which is the number of marks |
| `Operator.AllSurvivors` | src/operator.cpp:209 | one surviving-index list per class, for the candidates of the network's rows |
| `Operator.NoFrameInputNoFrame` | src/operator.cpp:124-134 | without an input on port "Frame" the buffer is empty, so there is no frame to decode |
| `Operator.AllAligned` | src/operator.cpp:186-209 | after suppression every class has parallel boxes and scores and surviving indices that point into them |
| `Operator.DetectionsMeetThreshold` | src/operator.cpp:199-230 | every drawn label's score reaches CONFIDENCE_THRESHOLD, and the count of drawn detections is the total number of survivors |
| `Operator.Run` | src/operator.cpp:159-247 | an empty or undecodable buffer ends the run with DecodeError and a failing forward pass with InferenceError, both without output; otherwise the single output is on port "Frame" and holds the encoding of the decoded frame with the detections of its rows drawn, and a summary reporting the elapsed time and their count |

## Left out

- Image decoding and JPEG encoding (`cv::imdecode`, `cv::imencode`, lines 174 and 241) are library codecs. They are the parameters `decode` and `encode` of `Operator.Run`. A decoded frame is its dimensions and its pixels, and only the library calls look at the pixels.
- Operator.Run: the exceptions that OpenCV raises are modelled as `Err` results. These are an empty buffer rejected by `imdecode`, the empty frame left by undecodable bytes that makes `blobFromImage` raise, and a failing forward pass. `imencode` is taken never to fail. The runtime's handling of a raised exception is not modelled.
- Blob construction, `setInput` and the forward pass (lines 176-180) are foreign inference. So is the choice of the CUDA backend (lines 62-64). The forward pass is the parameter `forward` of `Operator.Run`. The network topology and weights passed to the constructor are not modelled.
- `cv::dnn::NMSBoxes` (line 209) is library code whose algorithm is not part of this model. It is the parameter `nms`, and the model assumes only that every index it returns is a position in its input (`NmsContract`).
- The inference time (lines 179-182) comes from the clock and is the parameter `elapsedMicros`.
- Float-to-int truncation in `cv::Rect` and float rounding are left out. Rectangles and scores are real numbers.
- Drawing and text layout (`cv::rectangle`, `cv::putText`, `getTextSize`, lines 218-239) are rendering primitives. That includes the label background that can extend above the top of the frame. Each drawn detection is recorded as a `Mark`, and the summary as a `Summary`. The text formatting of labels and of the summary by `ostringstream` is not modelled.
- JSON configuration parsing in `initialize` (lines 99-122) is left out. So are the file opening and line reading in the `State` constructor, and its error message (line 68). The class file is given as its lines, or as None when it cannot be opened.
- `makeFrameOutput` (lines 136-143) is a byte-for-byte copy between vector types. `Operator.Run` places the encoded bytes in the output directly.
- The `State` getters (lines 79-97) only return fields. The model reads the fields directly.
- include/operator.hpp contains only declarations.
- Token statuses other than Ready are folded into one `Pending` status, because the operator only ever tests for Ready. The runtime's wrapper header is not part of this model.
