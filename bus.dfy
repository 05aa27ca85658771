/**
 * The message-bus vocabulary the agent works with: fixed-width integers,
 * bus errors, the calls it forwards, the replies it receives and the
 * messages it sends. Encoding and transport are not part of the model.
 */
module Bus {

  newtype uint16 = x: int | 0 <= x < 0x1_0000
  newtype uint32 = x: int | 0 <= x < 0x1_0000_0000

  /** A negative error number, as the bus library returns on failure. */
  type Errno = e: int | e < 0 witness -1

  /** The result of reading typed arguments from a message. */
  datatype ReadResult<+T> = Read(value: T) | ReadError(errno: Errno)

  /** A bus error: its name and its human-readable message. */
  datatype BusError = BusError(name: string, message: string)

  const ERROR_FAILED: string := "org.freedesktop.DBus.Error.Failed"
  const ERROR_INVALID_ARGS: string := "org.freedesktop.DBus.Error.InvalidArgs"

  /** The arguments of a message, marshalled; the agent copies them without looking inside. */
  type Body = seq<string>

  /** An outbound method call to the service manager: the method and its arguments. */
  datatype MethodCall = MethodCall(member: string, args: Body)

  /** What a reply callback receives from the service manager. */
  datatype Reply = ErrorReply(error: BusError) | ReturnReply(body: Body)

  /** A message the agent sends on the orchestrator connection. */
  datatype Outgoing =
    | MethodReturn(replyTo: nat, body: Body)
    | MethodError(replyTo: nat, error: BusError)
    | JobDone(id: uint32, result: string)
}
