/**
  What the collector reads from the `sysinfo` crate's `System`: the running
  processes, each with its pid and resident memory in bytes, and the node's
  total memory in bytes.
*/
module Sysinfo {
  import opened Wrappers

  datatype Process = Process(pid: nat, memory: nat)

  /** `processes` is the process table in its iteration order. */
  datatype System = System(processes: seq<Process>, totalMemory: nat)

  /** A process table is keyed by pid: no pid occurs twice. */
  predicate DistinctPids(sys: System) {
    forall i, j :: 0 <= i < j < |sys.processes| ==> sys.processes[i].pid != sys.processes[j].pid
  }

  /** `sys.process(pid)`. */
  function FindProcess(sys: System, pid: nat): (r: Option<Process>)
    ensures r.Some? ==> r.value in sys.processes && r.value.pid == pid
    ensures r.None? ==> forall p :: p in sys.processes ==> p.pid != pid
  {
    FindIn(sys.processes, pid)
  }

  function FindIn(procs: seq<Process>, pid: nat): (r: Option<Process>)
    ensures r.Some? ==> r.value in procs && r.value.pid == pid
    ensures r.None? ==> forall p :: p in procs ==> p.pid != pid
  {
    if procs == [] then None
    else if procs[0].pid == pid then Some(procs[0])
    else FindIn(procs[1..], pid)
  }

  /** In a table keyed by pid, looking up a listed process finds that process. */
  lemma {:induction false} FindListed(procs: seq<Process>, k: nat)
    requires k < |procs|
    requires forall i, j :: 0 <= i < j < |procs| ==> procs[i].pid != procs[j].pid
    ensures FindIn(procs, procs[k].pid) == Some(procs[k])
  {
    if k > 0 {
      assert procs[0].pid != procs[k].pid;
      assert procs[1..][k - 1] == procs[k];
      FindListed(procs[1..], k - 1);
    }
  }

  /** The pids of the process table, in iteration order. */
  function Pids(procs: seq<Process>): (r: seq<nat>)
    ensures |r| == |procs| && forall i :: 0 <= i < |procs| ==> r[i] == procs[i].pid
  {
    if procs == [] then [] else [procs[0].pid] + Pids(procs[1..])
  }
}
