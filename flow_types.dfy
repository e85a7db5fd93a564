/** Values exchanged between the operator and the dataflow runtime that hosts it. */
module FlowTypes {

  datatype Option<T> = None | Some(value: T)

  datatype Result<T, E> = Ok(value: T) | Err(error: E)

  /** One octet of an encoded image. */
  newtype byte = x: int | 0 <= x < 256

  type PortId = string

  /** The port on which the operator receives and emits encoded frames. */
  const FRAME_PORT: PortId := "Frame"

  /** A buffer received on an input port. */
  datatype Input = Input(portId: PortId, data: seq<byte>)

  /** A buffer emitted on an output port. */
  datatype Output = Output(portId: PortId, data: seq<byte>)

  /** Readiness of an input token; every status other than Ready is folded into Pending. */
  datatype TokenStatus = Pending | Ready

  datatype Token = Token(status: TokenStatus)

  /** Notification that the operator missed a local deadline; the operator ignores its contents. */
  datatype LocalDeadlineMiss = LocalDeadlineMiss
}
