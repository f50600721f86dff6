# spidev plugin model

A model of the Linux spidev plugin of flutter-pi (`src/plugins/spidev.c`).
The plugin answers method calls on its platform channel. `open` opens a
`/dev/spidev*` device and starts a worker thread for the new handle.
`setMode`, `getMode`, `setMaxSpeed`, `getMaxSpeed`, `setWordSize`,
`getWordSize`, `transmit` and `close` name a handle. The plugin builds a task
for the call and puts it into the single task slot of that handle's worker.
The worker performs the system call and sends a reply. That reply goes to
the reply handle stored in the task, and the plugin never sets that field.

The model has four parts:

- **Validation and task building** (`Dispatch`). This is a pure function from
  the method name and the decoded argument to a decision: open a path, submit
  a task for a handle, or answer at once. The argument shapes, the error
  messages, the C integer narrowings (`CTypes`) and the field-by-field
  `transmit` check are kept as the code has them. A second, table-driven
  statement of the `transmit` check (`TRANSMIT_FIELDS`, `FirstBadField`) is
  proved equal to the if-chain.
- **The handle registry** (`HandleRegistry`). It is an array of worker slots
  filled from the front. Registration is an append. Lookup returns the first
  registered slot holding the handle (`Search.FirstIndex`). The hand-off
  fills an empty slot.
- **The worker** (`SpiWorker`). This is one pass of the thread loop over the
  task in its slot. It covers the replies it sends, the buffer it frees, and
  the slot it clears. A successful close also retires the handle.
- **The plugin** (`Plugin`). `OnReceive` ties these together against a
  ghost log of every reply sent and every heap block allocated and freed
  (`SpiWorker.Host`). The two-state predicate `Plugin.SpidevPlugin.Handled`
  states the whole effect of one request.

Results of code outside the file are parameters (`Plugin.Env`,
`SpiWorker.OsResult`). This covers open(2), ioctl(2), close(2),
pthread_create, malloc, and the values of locals read before they are
assigned.

## Model

| member | source | states |
|---|---|---|
| Search.FirstIndex | src/plugins/spidev.c:206-212 | the index found holds the handle and no earlier registered slot does; there is no index exactly when the handle is absent |
| CTypes.ToInt32 | src/plugins/spidev.c:294 | a 64-bit integer stored in an `int` keeps its value when it fits and is otherwise congruent to it modulo 2^32 |
| CTypes.ToU8 | src/plugins/spidev.c:295 | a value stored in a `uint8_t` (mode, bits per word) is unchanged when in range and otherwise reduced modulo 2^8 |
| CTypes.ToU16 | src/plugins/spidev.c:393 | a value stored in `delay_usecs` is unchanged when in range and otherwise reduced modulo 2^16 |
| CTypes.ToU32 | src/plugins/spidev.c:383 | a value stored in `speed_hz` or `len` is unchanged when in range and otherwise reduced modulo 2^32 |
| CTypes.ToU64 | src/plugins/spidev.c:321 | a speed stored in the `uint64_t` union member is unchanged when in range and otherwise reduced modulo 2^64 |
| StdValue.GetStrIsFirstMatch | src/plugins/spidev.c:371-372 | a map lookup by string key misses exactly when no entry has that key, and otherwise yields the value of the first entry that has it |
| Dispatch.Decide | src/plugins/spidev.c:289-444 | an unknown method name is answered "not implemented", and only those are; `open` with a string opens that path, with anything else it is an illegal argument; the set methods need a list of two integers and submit the narrowed value for the narrowed handle; the get methods need one integer; `close` submits with the unassigned `fd`; `transmit` is decided by `DecideTransmit`; every submitted task carries the reply handle left in the unassigned local task, never one set from the request; only `transmit` allocates; an immediate answer is always an illegal argument or "not implemented" |
| Dispatch.DecideTransmit | src/plugins/spidev.c:369-440 | every submitted task carries the unassigned reply handle; a non-map argument submits a transmit with the unassigned `fd` and transfer; a rejection happens only for a map and is an illegal argument; a buffer is allocated exactly when a map argument is accepted; then tx and rx point at the new block, the length is the byte count, the block holds the `buffer` bytes, and fd, speed, delay and word size are the looked-up values narrowed to their C types; the chip-select change is 1 for `true` and 0 for `false` |
| Dispatch.FirstBadField | src/plugins/spidev.c:370-436 | yields the first field of the table that is missing or of the wrong kind, with all earlier fields passing; it yields nothing exactly when every field passes |
| Dispatch.TransmitChecksFieldsInOrder | src/plugins/spidev.c:370-436 | a map argument is rejected with the message of the first failing field in the order fd, speed, delay, wordSize, csChange, buffer; when every field passes, the task is submitted with an allocated buffer |
| Dispatch.TransmitRejectsAt | src/plugins/spidev.c:371-436 | when the fields before position k pass and field k fails, the reply is field k's message |
| Dispatch.RejectsAmongFirstThree | src/plugins/spidev.c:371-399 | when one of fd, speed or delay fails and the fields before it pass, the reply is that field's message |
| Dispatch.RejectsAmongLastThree | src/plugins/spidev.c:401-436 | when fd, speed and delay pass and one of wordSize, csChange or buffer fails after the fields before it passed, the reply is that field's message |
| Dispatch.TransmitAcceptsAllPassing | src/plugins/spidev.c:421-440 | when every field passes, the argument is accepted and the buffer allocated |
| SpiWorker.Host.Respond | src/plugins/spidev.c:91 | a reply appends exactly one entry to the reply log and touches nothing else |
| SpiWorker.Host.Malloc | src/plugins/spidev.c:425 | an allocation adds the block to the live blocks and touches nothing else |
| SpiWorker.Host.Free | src/plugins/spidev.c:187 | a free removes the block from the live blocks and logs the call |
| SpiWorker.StepReplies | src/plugins/spidev.c:78-199 | a pass over a task sends at most one reply, always to the task's reply handle; it sends one unless the call failed with errno 0; the reply is a success exactly when the call succeeded, and on failure it is the native error carrying errno |
| SpiWorker.Worker.constructor | src/plugins/spidev.c:47-51 | an initialised slot has handle -1, no task and no thread |
| SpiWorker.Worker.Step | src/plugins/spidev.c:73-199 | one pass clears the slot and sends the replies `StepReplies` gives; a close that succeeds sets the handle to -1 and ends the loop, and otherwise the handle and the loop are unchanged; a transmit frees its rx buffer exactly once whether the call succeeded or not, and other tasks free nothing |
| HandleRegistry.Registry.constructor | src/plugins/spidev.c:468-472 | `capacity` distinct initialised slots, none registered |
| HandleRegistry.Registry.NewThread | src/plugins/spidev.c:215-232 | the handle is appended to the registered handles; its slot is empty, and its thread runs exactly when pthread_create returned 0; errno is reported only when pthread_create returned -1 |
| HandleRegistry.Registry.GetThread | src/plugins/spidev.c:203-213 | the result is the first registered slot holding the handle, or nothing; the registry lock is still held exactly when a slot was found |
| HandleRegistry.Registry.AssignTask | src/plugins/spidev.c:234-253 | an unregistered handle gives EBADF and changes no slot; an occupied slot changes nothing and yields the indeterminate fall-off value; otherwise the slot holds the task, the result is 0 and no other slot changes; the registered handles never change |
| Plugin.SpidevPlugin.constructor | src/plugins/spidev.c:465-472 | `SIZE_THREADS` (1) empty slots, no handle registered, no reply sent, no block live |
| Plugin.SpidevPlugin.OpenDevice | src/plugins/spidev.c:255-280 | a failed open answers with its errno and registers nothing; a successful open appends the handle, leaves its slot empty, starts its thread exactly when pthread_create returned 0, and answers success unless pthread_create returned -1 with a nonzero errno; no other slot changes and the registry lock is left as it was |
| Plugin.SpidevPlugin.SubmitTask | src/plugins/spidev.c:446-460 | an accepted hand-off sends no reply to the request (the worker later replies to the task's unassigned handle); EBUSY is answered with the "busy" error; any other nonzero result is answered as a native error; the registered handles and live blocks do not change; the registry lock stays held exactly when the handle was found |
| Plugin.SpidevPlugin.Act | src/plugins/spidev.c:289-462 | carries out a decision as `Handled` states: an immediate answer is sent and nothing else changes; an open behaves as `OpenDevice` and changes no other slot; a submit allocates the transmit buffer and hands the task to the first slot for the handle, answering EBADF for an unknown handle and the fall-off value for an occupied slot, and leaves the registry lock held exactly when the handle was found |
| Plugin.SpidevPlugin.OnReceive | src/plugins/spidev.c:282-463 | the whole effect of one request is `Handled` applied to the decision `Decide` reaches; an accepted request gets no reply at this point, and the task it leaves carries the unassigned reply handle |
| Plugin.SpidevPlugin.Work | src/plugins/spidev.c:65-201 | the worker of slot k consumes its task and sends `StepReplies`; a successful close replaces the slot's handle by -1 in the registered handles, so a later lookup of the closed handle no longer finds that slot; otherwise the registered handles are unchanged and the thread keeps running; the slot is cleared and keeps its task; a transmit frees its rx buffer exactly once (it leaves the live blocks and is logged as freed), and other tasks free nothing |

## Left out

- Mutexes, condition variables and threads. They are not modelled as concurrency. A worker pass is a separate call (`Work`) made whenever its slot holds a task and its thread runs. Waking on the condition variable is not modelled.
- The registry lock is held after a successful lookup. `GetThread` returns on a hit without unlocking, and the model records this in `listHeld`. Later calls do not block on it in the model. In the program, every later request that reaches the registry lock waits forever. These are lookups in `spidevp_get_thread` (src/plugins/spidev.c:204) and registrations in `spidevp_new_thread` (src/plugins/spidev.c:219). Illegal-argument and not-implemented answers are still sent, and so is the error answer of an `open` whose open(2) fails.
- AssignTask: the model does not have the worker's trylock. A slot that still holds a task stands for the worker's lock being held, and a hand-off to it is refused with `fallOff`. The program differs from this in three ways:
  - The worker unlocks before it clears `has_task` (src/plugins/spidev.c:195). A hand-off between the two is wiped out by that clearing. The new task is never run and never answered, and a transmit buffer leaks.
  - After `spidevp_assign_task` unlocks (src/plugins/spidev.c:249) and before the worker takes the lock again, trylock succeeds. A second hand-off then overwrites the pending task, which is never answered.
  - A slot with no running thread (pthread_create failed, or the handle was closed) has no lock holder. There trylock succeeds, and a task that is still pending is overwritten.
- In the busy case the program reaches the end of the function without a return statement, and the model gives the caller an arbitrary value (`fallOff`). If that value is 0, the request is never answered. The branch that tests trylock for -1 cannot be taken, since trylock reports errors by its return value. It is therefore not modelled.
- NewThread: requires a free slot, because the program has no capacity check. With `size_threads` equal to 1, a second successful `open` writes past the array.
- The ioctl request encodings and the system calls themselves. Their results are parameters (`OsResult`, `Env`).
- The values read by `getMode`, `getMaxSpeed` and `getWordSize`. The program stores each in a local and replies with no payload. The model replies Success and drops the value.
- The fields of `struct spi_ioc_transfer` that the plugin never sets (`tx_nbits`, `rx_nbits`, padding) are not modelled.
- A NULL return from malloc is not modelled. The memcpy into the block is covered by the `bytes` of the allocation.
- A transmit buffer that is allocated and then rejected by the hand-off is never freed. The model shows this in `Host.live` and does not prove anything further about it.
- The platform-channel transport (`platch_respond_*`) is reduced to an append to a reply log. The message codec and `stdmap_get_str` are in `src/platformchannel.c`, which is not part of this model. The map lookup is taken to return the first entry with a matching string key. Integer values are read as 64-bit.
- The log lines printed by `spidevp_init` and `spidevp_deinit`, and the channel registration in `spidevp_init`. `spidevp_deinit` does nothing else.
- `pthread_create` is called with a NULL thread pointer. The model takes only its return value and errno.

## Behaviour kept as written

- `close`, and `transmit` with an argument that is not a map, submit with the local `fd` (and transfer) before anything is assigned. The model passes these values in as `Env.stale`.
- No path sets the task's reply handle (`task.responsehandle`). A task that the worker accepts carries whatever the local held (`Env.stale.response`). The worker replies to that handle, and the request's own handle is never answered. The model builds every task with `stale.response` and answers `response` only for immediate replies and refused hand-offs.
- A `transmit` whose argument is not a map submits the unassigned transfer. The worker then frees its unassigned `rx_buf` (src/plugins/spidev.c:174, :179 and :187). `Worker.Step` frees `stale.transfer.rxBuf` in the same way.
- The message for a bad `csChange` says "integer", but the check is for a boolean.
- A transmit passes the task's `spi_ioc_transfer` to ioctl by value (src/plugins/spidev.c:176), where the other requests pass an address. The kernel therefore never receives the task's transfer descriptor. The model takes the ioctl outcome as a parameter, so it does not depend on this.
- Slots of closed handles keep handle -1 and stay registered. A request that names handle -1 finds the first such slot.
- A worker whose `pthread_create` did not return 0 is registered, but no thread takes tasks from its slot.
