/** Assembly of the encoded frame from the inputs received on the "Frame" port. */
module FrameInput {
  import opened FlowTypes

  /** The payloads of the inputs that arrived on the "Frame" port, in input order. */
  function FramePayloads(inputs: seq<Input>): seq<seq<byte>>
  {
    if inputs == [] then []
    else (if inputs[0].portId == FRAME_PORT then [inputs[0].data] else []) + FramePayloads(inputs[1..])
  }

  /** Concatenation of a sequence of byte strings. */
  function Flatten(ps: seq<seq<byte>>): seq<byte>
  {
    if ps == [] then [] else ps[0] + Flatten(ps[1..])
  }

  /** The frame buffer the operator decodes: all "Frame" payloads, concatenated in order. */
  function FrameBytes(inputs: seq<Input>): seq<byte>
  {
    Flatten(FramePayloads(inputs))
  }

  /** Sum of the payload lengths of the "Frame" inputs. */
  function FrameLength(inputs: seq<Input>): nat
  {
    if inputs == [] then 0
    else (if inputs[0].portId == FRAME_PORT then |inputs[0].data| else 0) + FrameLength(inputs[1..])
  }

  lemma {:induction false} FramePayloadsAppend(a: seq<Input>, b: seq<Input>)
    ensures FramePayloads(a + b) == FramePayloads(a) + FramePayloads(b)
  {
    if a == [] {
      assert a + b == b;
    } else {
      assert (a + b)[1..] == a[1..] + b;
      FramePayloadsAppend(a[1..], b);
    }
  }

  lemma {:induction false} FlattenAppend(p: seq<seq<byte>>, q: seq<seq<byte>>)
    ensures Flatten(p + q) == Flatten(p) + Flatten(q)
  {
    if p == [] {
      assert p + q == q;
    } else {
      assert (p + q)[1..] == p[1..] + q;
      FlattenAppend(p[1..], q);
    }
  }

  /** Splitting the input list splits the frame buffer at the same place. */
  lemma FrameBytesAppend(a: seq<Input>, b: seq<Input>)
    ensures FrameBytes(a + b) == FrameBytes(a) + FrameBytes(b)
  {
    FramePayloadsAppend(a, b);
    FlattenAppend(FramePayloads(a), FramePayloads(b));
  }

  /** An input contributes its whole payload at its own position when it is on the "Frame" port, and nothing otherwise. */
  lemma FrameBytesSplit(a: seq<Input>, x: Input, b: seq<Input>)
    ensures FrameBytes(a + [x] + b) == FrameBytes(a) + (if x.portId == FRAME_PORT then x.data else []) + FrameBytes(b)
  {
    FrameBytesAppend(a + [x], b);
    FrameBytesAppend(a, [x]);
    assert [x][1..] == [];
    assert FrameBytes([x]) == (if x.portId == FRAME_PORT then x.data else []) by {
      assert FramePayloads([x]) == (if x.portId == FRAME_PORT then [x.data] else []) + FramePayloads([]);
      assert [x.data][1..] == [];
      assert Flatten([x.data]) == x.data + Flatten([]);
    }
  }

  /** The buffer's length is the sum of the "Frame" payload lengths. */
  lemma {:induction false} FrameBytesLength(inputs: seq<Input>)
    ensures |FrameBytes(inputs)| == FrameLength(inputs)
  {
    if inputs != [] {
      FrameBytesSplit([], inputs[0], inputs[1..]);
      assert [] + [inputs[0]] + inputs[1..] == inputs;
      FrameBytesLength(inputs[1..]);
    }
  }

  /** With no input on the "Frame" port the buffer is empty. */
  lemma {:induction false} FrameBytesWithoutFrames(inputs: seq<Input>)
    requires forall i :: 0 <= i < |inputs| ==> inputs[i].portId != FRAME_PORT
    ensures FrameBytes(inputs) == []
  {
    if inputs != [] {
      FrameBytesSplit([], inputs[0], inputs[1..]);
      assert [] + [inputs[0]] + inputs[1..] == inputs;
      FrameBytesWithoutFrames(inputs[1..]);
    }
  }

  /** Gathers the bytes of every "Frame" input into one buffer, input by input and byte by byte. */
  method GetFrameInput(inputs: seq<Input>) returns (buffer: seq<byte>)
    ensures buffer == FrameBytes(inputs)
  {
    buffer := [];
    for k := 0 to |inputs|
      invariant buffer == FrameBytes(inputs[..k])
    {
      var input := inputs[k];
      ghost var before := buffer;
      if input.portId == FRAME_PORT {
        for j := 0 to |input.data|
          invariant buffer == before + input.data[..j]
        {
          buffer := buffer + [input.data[j]];
        }
        assert input.data[..|input.data|] == input.data;
      }
      FrameBytesSplit(inputs[..k], input, []);
      assert inputs[..k] + [input] + [] == inputs[..k + 1];
    }
    assert inputs[..|inputs|] == inputs;
  }
}
