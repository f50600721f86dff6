/** A device handle's worker: the per-handle state (`struct spidevp_thread`)
    and one iteration of its thread loop (`spidevp_run_spi_thread`). */
module SpiWorker {
  import opened CTypes
  import opened SpiTask

  /** What a system call returned: success with the value it produced (the
      value read, for read requests), or failure with `errno`. */
  datatype OsResult = Ok(value: int) | Failed(errno: int)

  /** The plugin's surroundings, kept as ghost logs: every reply sent through
      the reply transport, the multiset of live heap blocks, and every call
      to free in order. */
  class Host {
    ghost var replies: seq<(ResponseHandle, Reply)>
    ghost var live: multiset<Addr>
    ghost var freed: seq<Addr>

    constructor ()
      ensures replies == [] && live == multiset{} && freed == []
    {
      replies, live, freed := [], multiset{}, [];
    }

    /** One call of a `platch_respond_*` function. */
    method Respond(response: ResponseHandle, reply: Reply)
      modifies this
      ensures replies == old(replies) + [(response, reply)]
      ensures live == old(live) && freed == old(freed)
    {
      replies := replies + [(response, reply)];
    }

    /** A call of malloc that returned `addr`. */
    method Malloc(addr: Addr)
      modifies this
      ensures live == old(live) + multiset{addr}
      ensures replies == old(replies) && freed == old(freed)
    {
      live := live + multiset{addr};
    }

    /** A call of free on `addr`. */
    method Free(addr: Addr)
      modifies this
      ensures live == old(live) - multiset{addr}
      ensures freed == old(freed) + [addr]
      ensures replies == old(replies)
    {
      live := live - multiset{addr};
      freed := freed + [addr];
    }
  }

  /** The task a zero-initialised slot holds: type 0 (close), NULL reply handle. */
  const ZERO_TASK := Task(Close, 0)

  /** The replies one pass of the loop sends for `task` when its system call
      gave `outcome`: at most one, addressed to the task's own reply handle;
      exactly one unless the call failed with errno 0; a success exactly when
      the call succeeded, with no payload whatever value was read. */
  function StepReplies(task: Task, outcome: OsResult): (rs: seq<(ResponseHandle, Reply)>)
    ensures |rs| <= 1
    ensures forall i :: 0 <= i < |rs| ==> rs[i].0 == task.response
    ensures |rs| == 1 <==> outcome.Ok? || outcome.errno != 0
    ensures |rs| == 1 ==> (rs[0].1 == Success <==> outcome.Ok?)
    ensures |rs| == 1 && outcome.Failed? ==> rs[0].1 == NativeError(outcome.errno)
  {
    match outcome
    case Ok(_) => [(task.response, Success)]
    case Failed(errno) => if errno != 0 then [(task.response, NativeError(errno))] else []
  }

  /** A close that the operating system carried out. */
  predicate Closes(op: Op, outcome: OsResult) {
    op.Close? && outcome.Ok?
  }

  class Worker {
    var fd: int32
    var hasTask: bool
    var task: Task
    /** The thread's own copy of `fd`, read when the thread starts; its
        system calls all use this copy. */
    var handle: int32
    /** The thread loop's `running` flag; false also when no thread runs. */
    ghost var running: bool

    /** A slot as `SPI_THREAD_INITIALIZER` leaves it: no handle, no task, no thread. */
    constructor ()
      ensures fd == -1 && !hasTask && task == ZERO_TASK && handle == -1 && !running
    {
      fd, hasTask, task, handle, running := -1, false, ZERO_TASK, -1, false;
    }

    /** While the loop runs, the slot still names the handle the thread uses. */
    ghost predicate Valid()
      reads this
    {
      running ==> fd == handle
    }

    /** One pass of the thread loop after it has woken with a task: perform
        the task's system call (its result is `outcome`), reply, free the
        transfer buffer of a transmit, and clear the slot. */
    method Step(host: Host, outcome: OsResult)
      requires Valid() && running && hasTask
      modifies this, host
      ensures Valid()
      ensures !hasTask && task == old(task) && handle == old(handle)
      ensures Closes(old(task.op), outcome) ==> fd == -1 && !running
      ensures !Closes(old(task.op), outcome) ==> fd == old(fd) && running
      ensures host.replies == old(host.replies) + StepReplies(old(task), outcome)
      ensures old(task.op).Transmit? ==>
                && host.freed == old(host.freed) + [old(task.op.transfer.rxBuf)]
                && host.live == old(host.live) - multiset{old(task.op.transfer.rxBuf)}
      ensures !old(task.op).Transmit? ==> host.freed == old(host.freed) && host.live == old(host.live)
    {
      var err: int := 0;
      match task.op {
      case Close =>
        if outcome.Failed? {
          err := outcome.errno;
        } else {
          running := false;
          fd := -1;
          host.Respond(task.response, Success);
        }
      case RdMode | RdBitsPerWord | RdMaxSpeedHz =>
        if outcome.Failed? {
          err := outcome.errno;
        } else {
          // the value read is kept in `result` and never sent
          var result := outcome.value;
          host.Respond(task.response, Success);
        }
      case WrMode(_) | WrBitsPerWord(_) | WrMaxSpeedHz(_) =>
        if outcome.Failed? {
          err := outcome.errno;
        } else {
          host.Respond(task.response, Success);
        }
      case Transmit(transfer) =>
        var buf := transfer.rxBuf;
        if outcome.Failed? {
          err := outcome.errno;
          host.Free(buf);
        } else {
          host.Respond(task.response, Success);
          host.Free(buf);
        }
      }
      hasTask := false;
      if err != 0 {
        host.Respond(task.response, NativeError(err));
      }
    }
  }
}
