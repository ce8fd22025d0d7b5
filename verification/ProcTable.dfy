/** The process table entries that the scheduler reads and writes (proc.h, param.h). */
module ProcTable {
  const NPROC: nat := 64
  const NCPU: nat := 8

  /** The null pointer, for indices into node pools, the process table and the run-queue table. */
  const NIL: int := -1

  datatype ProcState = UNUSED | EMBRYO | SLEEPING | RUNNABLE | RUNNING | ZOMBIE

  /** What a process sleeps on: a process table slot (wait) or any other kernel address. */
  datatype Chan = NoChan | OfProc(slot: int) | Address(a: int)

  datatype Proc = Proc(state: ProcState, pid: int, parent: int, chan: Chan, killed: bool, timeslice: int, rq: int)

  /** p as enqueue_proc_RR leaves it: on queue id, with a fresh slice unless it was last on id. */
  function EnteredRing(p: Proc, id: int, maxSlices: int): (r: Proc) {
    p.(rq := id, timeslice := if p.rq != id then maxSlices else p.timeslice)
  }

  /** p as enqueue_proc_fifo leaves it. */
  function EnteredFifo(p: Proc, id: int): (r: Proc) {
    p.(rq := id)
  }

  /** The global proc[NPROC], shared by the run queues and the kernel. */
  class Table {
    var procs: seq<Proc>

    constructor (procs: seq<Proc>)
      ensures this.procs == procs
    {
      this.procs := procs;
    }
  }
}
