/** The plugin as a whole: the entry point `spidevp_onReceive` acting on the
    registry and the reply transport, `spidevp_open`, and a worker thread's
    pass over the task in its slot. */
module Plugin {
  import opened Wrappers
  import opened Search
  import opened CTypes
  import opened StdValue
  import opened SpiTask
  import opened Dispatch
  import opened SpiWorker
  import opened HandleRegistry

  /** What the code outside the model gives back while one request is handled. */
  datatype Env = Env(
    /** onReceive's locals `fd` and `task.transfer` before assignment */
    stale: Uninit,
    /** the block malloc returns for a transmit buffer */
    buffer: Addr,
    /** what open(2) returns, and errno after it */
    openFd: int32,
    openErrno: int,
    /** what pthread_create returns, and errno after it */
    createRc: int,
    createErrno: int,
    /** the indeterminate value `spidevp_assign_task` yields when it ends
        without a return statement */
    fallOff: int)

  /** How onReceive answers a hand-off that `spidevp_assign_task` reported as `rc`. */
  function SubmitReply(rc: int): Option<Reply> {
    if rc == 0 then None
    else if rc == EBUSY then Some(Error(BUSY_CODE, BUSY_MESSAGE))
    else Some(NativeError(rc))
  }

  /** The replies sent for a request: none or one, to its own handle. */
  function Answer(response: ResponseHandle, reply: Option<Reply>): seq<(ResponseHandle, Reply)> {
    match reply
    case None => []
    case Some(r) => [(response, r)]
  }

  /** The reply `spidevp_open` sends once the device is open: `new_thread`
      reports errno only when pthread_create returned -1. */
  function OpenedReply(createRc: int, createErrno: int): Reply {
    if createRc == -1 && createErrno != 0 then NativeError(createErrno) else Success
  }

  class SpidevPlugin {
    const registry: Registry
    const host: Host

    ghost predicate Valid()
      reads this, registry, registry.threads, registry.Workers()
    {
      registry.Valid()
    }

    /** The state `spidevp_init` sets up: `SIZE_THREADS` empty slots. */
    constructor ()
      ensures Valid() && fresh(registry) && fresh(registry.threads) && fresh(registry.Workers()) && fresh(host)
      ensures registry.threads.Length == SIZE_THREADS && registry.Fds() == [] && !registry.listHeld
      ensures host.replies == [] && host.live == multiset{} && host.freed == []
    {
      registry := new Registry(SIZE_THREADS);
      host := new Host();
    }

    /** The effect of `spidevp_onReceive` once it has reached decision `d`,
        relating the state before the request to the state after it. */
    twostate predicate Handled(d: Decision, response: ResponseHandle, env: Env)
      requires old(Valid()) && Valid() && registry.threads == old(registry.threads)
      requires registry.Workers() == old(registry.Workers())
      reads this, registry, registry.threads, registry.Workers(), host
    {
      && host.freed == old(host.freed)
      && host.live == old(host.live) + (if d.Submit? && d.alloc.Some? then multiset{d.alloc.value.addr} else multiset{})
      && match d
         case Respond(reply) =>
           && host.replies == old(host.replies) + [(response, reply)]
           && registry.numThreads == old(registry.numThreads) && registry.listHeld == old(registry.listHeld)
           && unchanged(registry.Workers())
         case Open(_) =>
           if env.openFd == -1 then
             && host.replies == old(host.replies) + [(response, NativeError(env.openErrno))]
             && registry.numThreads == old(registry.numThreads)
             && registry.listHeld == old(registry.listHeld)
             && unchanged(registry.Workers())
           else
             && old(registry.numThreads) < registry.threads.Length
             && host.replies == old(host.replies) + [(response, OpenedReply(env.createRc, env.createErrno))]
             && registry.Fds() == old(registry.Fds()) + [env.openFd]
             && registry.listHeld == old(registry.listHeld)
             && var w := registry.threads[old(registry.numThreads)];
                && w.handle == env.openFd && !w.hasTask && w.running == (env.createRc == 0)
                && unchanged(registry.Workers() - {w})
         case Submit(fd, task, _) =>
           && registry.numThreads == old(registry.numThreads)
           && registry.Fds() == old(registry.Fds())
           && registry.listHeld == FirstIndex(old(registry.Fds()), fd).Some?
           && match FirstIndex(old(registry.Fds()), fd)
              case None =>
                && host.replies == old(host.replies) + [(response, NativeError(EBADF))]
                && unchanged(registry.Workers())
              case Some(k) =>
                var w := registry.threads[k];
                if old(registry.threads[k].hasTask) then
                  && host.replies == old(host.replies) + Answer(response, SubmitReply(env.fallOff))
                  && unchanged(registry.Workers())
                else
                  && host.replies == old(host.replies)
                  && w.hasTask && w.task == task
                  && w.fd == old(registry.threads[k].fd) && w.handle == old(registry.threads[k].handle)
                  && w.running == old(registry.threads[k].running)
                  && unchanged(registry.Workers() - {w})
    }

    /** `spidevp_open` once its argument is known to be a path: open the
        device (it returned `env.openFd`), register the handle, reply. A free
        slot is required when the open succeeds: the program writes past
        the array otherwise. */
    method OpenDevice(path: string, response: ResponseHandle, env: Env)
      requires Valid()
      requires env.openFd != -1 ==> registry.numThreads < registry.threads.Length
      modifies registry`numThreads, registry.Workers(), host
      ensures Valid() && registry.threads == old(registry.threads)
      ensures registry.Workers() == old(registry.Workers())
      ensures Handled(Open(path), response, env)
    {
      if env.openFd == -1 {
        host.Respond(response, NativeError(env.openErrno));
        return;
      }
      var ok := registry.NewThread(env.openFd, env.createRc, env.createErrno);
      if ok != 0 {
        host.Respond(response, NativeError(ok));
        return;
      }
      host.Respond(response, Success);
    }

    /** The tail of `spidevp_onReceive` once a task is built: the task is
        handed to the worker for `fd`, and the caller is answered according
        to what the hand-off reported (`ok`), unless that is 0. */
    method SubmitTask(fd: int32, task: Task, response: ResponseHandle, fallOff: int)
      returns (ok: int)
      requires Valid()
      modifies registry`listHeld, registry.Workers(), host
      ensures Valid() && registry.numThreads == old(registry.numThreads)
      ensures registry.Fds() == old(registry.Fds())
      ensures host.freed == old(host.freed) && host.live == old(host.live)
      ensures host.replies == old(host.replies) + Answer(response, SubmitReply(ok))
      ensures var hit := FirstIndex(old(registry.Fds()), fd);
              && registry.listHeld == hit.Some?
              && (hit.None? ==> ok == EBADF && unchanged(registry.Workers()))
              && (hit.Some? && old(registry.threads[hit.value].hasTask) ==>
                    ok == fallOff && unchanged(registry.Workers()))
      ensures var hit := FirstIndex(old(registry.Fds()), fd);
              hit.Some? && !old(registry.threads[hit.value].hasTask) ==>
                var w := registry.threads[hit.value];
                && ok == 0 && w.hasTask && w.task == task
                && w.fd == old(w.fd) && w.handle == old(w.handle) && w.running == old(w.running)
                && unchanged(registry.Workers() - {w})
    {
      ok := registry.AssignTask(fd, task, fallOff);
      if ok == 0 {
        // accepted: the worker sends the reply
      } else if ok == EBUSY {
        host.Respond(response, Error(BUSY_CODE, BUSY_MESSAGE));
      } else {
        host.Respond(response, NativeError(ok));
      }
    }

    /** What `spidevp_onReceive` does with its decision `d`: answer at once,
        open a device, or allocate the transmit buffer and hand the task over. */
    method Act(d: Decision, response: ResponseHandle, env: Env)
      requires Valid()
      requires d.Open? && env.openFd != -1 ==> registry.numThreads < registry.threads.Length
      modifies registry`numThreads, registry`listHeld, registry.Workers(), host
      ensures Valid() && registry.threads == old(registry.threads)
      ensures registry.Workers() == old(registry.Workers())
      ensures Handled(d, response, env)
    {
      match d {
        case Respond(reply) =>
          host.Respond(response, reply);
        case Open(path) =>
          OpenDevice(path, response, env);
        case Submit(fd, task, alloc) =>
          if alloc.Some? {
            host.Malloc(alloc.value.addr);
          }
          var _ := SubmitTask(fd, task, response, env.fallOff);
      }
    }

    /** `spidevp_onReceive`: validate the request, then open a device, hand
        a task to a worker, or answer at once. */
    method OnReceive(name: string, arg: Value, response: ResponseHandle, env: Env)
      requires Valid()
      requires Decide(name, arg, env.stale, env.buffer).Open? && env.openFd != -1 ==>
                 registry.numThreads < registry.threads.Length
      modifies registry`numThreads, registry`listHeld, registry.Workers(), host
      ensures Valid() && registry.threads == old(registry.threads)
      ensures registry.Workers() == old(registry.Workers())
      ensures Handled(Decide(name, arg, env.stale, env.buffer), response, env)
    {
      var d := Decide(name, arg, env.stale, env.buffer);
      Act(d, response, env);
    }

    /** The thread of slot `k` consumes the task in its slot; its system
        call gave `outcome`. A close that succeeds retires the slot's handle. */
    method Work(k: nat, outcome: OsResult)
      requires Valid() && k < registry.numThreads
      requires registry.threads[k].running && registry.threads[k].hasTask
      modifies registry.threads[k], host
      ensures Valid()
      ensures host.replies == old(host.replies) + StepReplies(old(registry.threads[k].task), outcome)
      ensures Closes(old(registry.threads[k].task.op), outcome) ==>
                && registry.Fds() == old(registry.Fds())[k := -1]
                && !registry.threads[k].running
      ensures !Closes(old(registry.threads[k].task.op), outcome) ==>
                registry.Fds() == old(registry.Fds()) && registry.threads[k].running
      ensures var old_fd := old(registry.threads[k].fd);
              Closes(old(registry.threads[k].task.op), outcome) && old_fd != -1 ==>
                FirstIndex(registry.Fds(), old_fd) != Some(k)
      ensures !registry.threads[k].hasTask && registry.threads[k].task == old(registry.threads[k].task)
      ensures old(registry.threads[k].task.op).Transmit? ==>
                var buf := old(registry.threads[k].task.op.transfer.rxBuf);
                host.freed == old(host.freed) + [buf] && host.live == old(host.live) - multiset{buf}
      ensures !old(registry.threads[k].task.op).Transmit? ==>
                host.freed == old(host.freed) && host.live == old(host.live)
    {
      registry.threads[k].Step(host, outcome);
    }
  }
}
