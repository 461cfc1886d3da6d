/** Constants and the process records of proc.h, param.h and bfs.h that the scheduler works on. */
module ProcTable {
  const NPROC: nat := 64
  const LEVELS: nat := 4
  const QUANTUM := 50
  const NICE_FIRST := -20
  const NICE_LAST := 19

  datatype ProcState = UNUSED | EMBRYO | SLEEPING | RUNNABLE | RUNNING | ZOMBIE

  /** The scheduling part of struct proc; max_skiplist_level is kept by the skip list. */
  datatype Proc = Proc(
    state: ProcState, pid: int, parent: int, chan: int, killed: bool,
    deadline: int, nice: int, ticksLeft: int)

  /** The deadlines of a whole table. */
  ghost function Deadlines(procs: seq<Proc>): (dl: seq<int>)
    ensures |dl| == |procs| && forall i :: 0 <= i < |dl| ==> dl[i] == procs[i].deadline
  {
    seq(|procs|, i requires 0 <= i < |procs| => procs[i].deadline)
  }
}
