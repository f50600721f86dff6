/** The plugin's task and reply vocabulary: what a worker is asked to do
    (`struct spidevp_task`) and the outcomes a request can be answered with. */
module SpiTask {
  import opened CTypes

  /** Address of a heap block, as stored in `spi_ioc_transfer.tx_buf`/`rx_buf`. */
  type Addr = u64

  /** A pending reply (`FlutterPlatformMessageResponseHandle *`), identified by number. */
  type ResponseHandle = nat

  /** The fields of `struct spi_ioc_transfer` the plugin fills in. */
  datatype Transfer = Transfer(
    txBuf: Addr,
    rxBuf: Addr,
    len: u32,
    speedHz: u32,
    delayUsecs: u16,
    bitsPerWord: u8,
    csChange: u8)

  /** The operation a task asks for (`enum spidevp_task_type`), each with the
      payload it uses from the task's union. Read operations carry none: the
      device fills the field in. */
  datatype Op =
    | Close
    | RdMode
    | WrMode(mode: u8)
    | WrBitsPerWord(bits: u8)
    | RdBitsPerWord
    | WrMaxSpeedHz(speed: u64)
    | RdMaxSpeedHz
    | Transmit(transfer: Transfer)

  /** One unit of work for a worker, and the reply it owes. */
  datatype Task = Task(op: Op, response: ResponseHandle)

  /** Terminal outcomes a request is answered with. `Success` carries no
      payload: every success reply of this plugin sends NULL. */
  datatype Reply =
    | Success
    | IllegalArgument(message: string)
    | NativeError(errno: int)
    | Error(code: string, message: string)
    | NotImplemented

  /** Linux errno values the plugin tests or returns. */
  const EBADF: int := 9
  const EBUSY: int := 16

  const EXPECTED_STRING := "Expected `arg` to be a string."
  const EXPECTED_INT_PAIR := "Expected `arg` to be a List<int> with size 2."
  const EXPECTED_INT := "Expected `arg` to be an integer."
  const EXPECTED_FD := "Expected `arg['fd']` to be an integer."
  const EXPECTED_SPEED := "Expected `arg['speed']` to be an integer."
  const EXPECTED_DELAY := "Expected `arg['delay']` to be an integer."
  const EXPECTED_WORD_SIZE := "Expected `arg['wordSize']` to be an integer."
  /** The csChange check tests for a bool; its message says integer. */
  const EXPECTED_CS_CHANGE := "Expected `arg['csChange']` to be an integer."
  const EXPECTED_BUFFER := "Expected `arg['buffer']` to be a uint8 array."
  const BUSY_CODE := "busy"
  const BUSY_MESSAGE := "a different task is running on the fd already"
}
