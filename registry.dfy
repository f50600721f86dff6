/** The handle registry (`spi_plugin.threads`, `num_threads`): an array of
    worker slots filled from the front, registration by append
    (`spidevp_new_thread`), lookup by first match (`spidevp_get_thread`), and
    the hand-off of a task into a worker's slot (`spidevp_assign_task`). */
module HandleRegistry {
  import opened Wrappers
  import opened Search
  import opened CTypes
  import opened SpiTask
  import opened SpiWorker

  /** The number of slots `spidevp_init` allocates (`size_threads`). */
  const SIZE_THREADS: nat := 1

  /** A slot past `num_threads`: as initialised, with no thread. */
  ghost predicate Unused(w: Worker)
    reads w
  {
    w.fd == -1 && !w.hasTask && !w.running
  }

  class Registry {
    var threads: array<Worker>
    var numThreads: nat
    /** Whether `threadlist_mutex` is held. */
    var listHeld: bool

    ghost function Workers(): set<Worker>
      reads this, threads
    {
      set i | 0 <= i < threads.Length :: threads[i]
    }

    ghost predicate Valid()
      reads this, threads, Workers()
    {
      && numThreads <= threads.Length
      && (forall i, j :: 0 <= i < j < threads.Length ==> threads[i] != threads[j])
      && (forall i :: 0 <= i < threads.Length ==> threads[i].Valid())
      && (forall i :: numThreads <= i < threads.Length ==> Unused(threads[i]))
    }

    /** The handles of the first `n` slots, in slot order. */
    ghost function FdsUpTo(n: nat): (s: seq<int32>)
      reads this, threads, Workers()
      requires n <= threads.Length
      ensures |s| == n && forall i :: 0 <= i < n ==> s[i] == threads[i].fd
    {
      if n == 0 then [] else FdsUpTo(n - 1) + [threads[n - 1].fd]
    }

    /** The handles of the registered slots: the registry as lookups see it. */
    ghost function Fds(): seq<int32>
      reads this, threads, Workers()
      requires numThreads <= threads.Length
    {
      FdsUpTo(numThreads)
    }

    /** The allocation part of `spidevp_init`: `capacity` initialised slots, none registered. */
    constructor (capacity: nat)
      ensures Valid() && fresh(threads) && fresh(Workers())
      ensures threads.Length == capacity && numThreads == 0 && !listHeld
      ensures Fds() == []
    {
      var placeholder := new Worker();
      var slots := new Worker[capacity](_ => placeholder);
      var i := 0;
      while i < capacity
        invariant 0 <= i <= capacity
        invariant forall j :: 0 <= j < i ==> fresh(slots[j]) && Unused(slots[j]) && slots[j].Valid()
        invariant forall j, l :: 0 <= j < l < i ==> slots[j] != slots[l]
      {
        var w := new Worker();
        slots[i] := w;
        i := i + 1;
      }
      threads, numThreads, listHeld := slots, 0, false;
    }

    /** Registers `fd` in the next free slot and starts its thread;
        `createRc` and `createErrno` are what pthread_create returned and
        left in errno. There is no capacity check in the program: a free slot
        is required of the caller. */
    method NewThread(fd: int32, createRc: int, createErrno: int) returns (err: int)
      requires Valid() && numThreads < threads.Length
      modifies this`numThreads, threads[numThreads]
      ensures Valid()
      ensures numThreads == old(numThreads) + 1
      ensures Fds() == old(Fds()) + [fd]
      ensures var w := threads[old(numThreads)];
              w.handle == fd && !w.hasTask && w.running == (createRc == 0)
      ensures err == if createRc == -1 then createErrno else 0
    {
      var w := threads[numThreads];
      numThreads := numThreads + 1;
      w.fd := fd;
      // the thread reads its copy of the handle when it starts
      w.handle := fd;
      w.running := createRc == 0;
      if createRc == -1 {
        return createErrno;
      }
      return 0;
    }

    /** First registered slot whose handle is `fd`. On a hit the program
        returns without releasing `threadlist_mutex`; on a miss it releases it. */
    method GetThread(fd: int32) returns (r: Option<nat>)
      requires Valid()
      modifies this`listHeld
      ensures r == FirstIndex(Fds(), fd)
      ensures listHeld == r.Some?
    {
      listHeld := true;
      var i := 0;
      while i < numThreads
        invariant 0 <= i <= numThreads
        invariant forall j :: 0 <= j < i ==> threads[j].fd != fd
      {
        if threads[i].fd == fd {
          return Some(i);
        }
        i := i + 1;
      }
      listHeld := false;
      return None;
    }

    /** Hands `task` to the worker registered for `fd`. An unregistered
        handle gives EBADF. Admission is modelled by the slot: an occupied
        slot stands for the worker's lock being held, in which case the
        program reaches the end of the function without a return statement
        and the caller receives an indeterminate value, `fallOff`. */
    method AssignTask(fd: int32, task: Task, fallOff: int) returns (rc: int)
      requires Valid()
      modifies this`listHeld, Workers()
      ensures Valid() && numThreads == old(numThreads)
      ensures Fds() == old(Fds())
      ensures var hit := FirstIndex(old(Fds()), fd);
              && listHeld == hit.Some?
              && (hit.None? ==> rc == EBADF && unchanged(Workers()))
              && (hit.Some? && old(threads[hit.value].hasTask) ==> rc == fallOff && unchanged(Workers()))
      ensures var hit := FirstIndex(old(Fds()), fd);
              hit.Some? && !old(threads[hit.value].hasTask) ==>
                var w := threads[hit.value];
                && rc == 0 && w.hasTask && w.task == task
                && w.fd == old(w.fd) && w.handle == old(w.handle) && w.running == old(w.running)
                && unchanged(Workers() - {w})
    {
      var found := GetThread(fd);
      if found.None? {
        return EBADF;
      }
      var w := threads[found.value];
      if w.hasTask {
        rc := fallOff;
      } else {
        w.task := task;
        w.hasTask := true;
        rc := 0;
      }
    }
  }
}
