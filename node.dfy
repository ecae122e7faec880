/**
  The node-level figures of one collector run (`collector_data/src/node.rs`):
  the node's total memory, and the memory its processes hold, per job and
  for the processes that belong to no job. Memory is summed in bytes and
  reported in whole megabytes (10^6 bytes).
*/
module Node {
  import opened Wrappers
  import Sysinfo
  import Job

  const BYTES_PER_MB: nat := 1_000_000

  datatype NodeInfo = NodeInfo(id: nat, memTotal: nat)

  datatype NodeUsage = NodeUsage(timestamp: string, nodeId: nat, memAlloc: nat, jobId: Option<string>)

  /** `NodeInfo::get_static_info`: node id 1 and the total memory in whole megabytes. */
  function GetStaticInfo(sys: Sysinfo.System): (info: NodeInfo)
    ensures info.id == 1
    ensures info.memTotal * BYTES_PER_MB <= sys.totalMemory < (info.memTotal + 1) * BYTES_PER_MB
  {
    NodeInfo(1, sys.totalMemory / BYTES_PER_MB)
  }

  /** The memory of the process with this pid, or 0 when there is none. */
  function MemoryOf(sys: Sysinfo.System, pid: nat): nat {
    match Sysinfo.FindProcess(sys, pid)
    case Some(p) => p.memory
    case None => 0
  }

  /** The bytes held by the listed pids that name a running process, counted once per listing. */
  function SumMemory(sys: Sysinfo.System, pids: seq<nat>): nat {
    if pids == [] then 0 else MemoryOf(sys, pids[0]) + SumMemory(sys, pids[1..])
  }

  lemma {:induction false} SumMemoryAppend(sys: Sysinfo.System, a: seq<nat>, b: seq<nat>)
    ensures SumMemory(sys, a + b) == SumMemory(sys, a) + SumMemory(sys, b)
  {
    if a != [] {
      assert (a + b)[1..] == a[1..] + b;
      SumMemoryAppend(sys, a[1..], b);
    } else {
      assert a + b == b;
    }
  }

  /** Pids that name no running process add nothing. */
  lemma {:induction false} SumMemoryOfMissing(sys: Sysinfo.System, pids: seq<nat>)
    requires forall i :: 0 <= i < |pids| ==> Sysinfo.FindProcess(sys, pids[i]).None?
    ensures SumMemory(sys, pids) == 0
  {
    if pids != [] {
      SumMemoryOfMissing(sys, pids[1..]);
    }
  }

  /** In a table keyed by pid, summing over the table's own pids adds up every process's memory. */
  lemma {:induction false} SumMemoryOfTable(sys: Sysinfo.System, procs: seq<Sysinfo.Process>)
    requires Sysinfo.DistinctPids(sys)
    requires forall p :: p in procs ==> p in sys.processes
    ensures SumMemory(sys, Sysinfo.Pids(procs)) == ProcessMemory(procs)
  {
    if procs != [] {
      assert procs[0] in sys.processes;
      var k :| 0 <= k < |sys.processes| && sys.processes[k] == procs[0];
      Sysinfo.FindListed(sys.processes, k);
      assert Sysinfo.Pids(procs)[1..] == Sysinfo.Pids(procs[1..]);
      SumMemoryOfTable(sys, procs[1..]);
    }
  }

  /** The memory of the listed processes. */
  function ProcessMemory(procs: seq<Sysinfo.Process>): nat {
    if procs == [] then 0 else procs[0].memory + ProcessMemory(procs[1..])
  }

  /**
    `NodeUsage::get_usage_per_job`: the memory of the job's processes that
    are running, summed and then truncated to megabytes, tagged with node 1
    and the job's id. `timestamp` is the local time the collector formats.
  */
  method GetUsagePerJob(sys: Sysinfo.System, job: Job.Job, timestamp: string) returns (usage: NodeUsage)
    ensures usage == NodeUsage(timestamp, 1, SumMemory(sys, job.processes) / BYTES_PER_MB, Some(job.id))
  {
    var memAlloc := 0;
    var k := 0;
    while k < |job.processes|
      invariant 0 <= k <= |job.processes|
      invariant memAlloc == SumMemory(sys, job.processes[..k])
    {
      var pid := job.processes[k];
      match Sysinfo.FindProcess(sys, pid) {
        case Some(process) => memAlloc := memAlloc + process.memory;
        case None =>
      }
      SumMemoryAppend(sys, job.processes[..k], [pid]);
      assert job.processes[..k + 1] == job.processes[..k] + [pid];
      k := k + 1;
    }
    assert job.processes[..k] == job.processes;
    usage := NodeUsage(timestamp, 1, memAlloc / BYTES_PER_MB, Some(job.id));
  }

  /** Every process id listed by some job, job by job. */
  function JobPids(jobs: seq<Job.Job>): (pids: seq<nat>)
    ensures forall pid :: pid in pids <==> exists j :: 0 <= j < |jobs| && pid in jobs[j].processes
  {
    if jobs == [] then []
    else
      var rest := JobPids(jobs[1..]);
      assert forall j :: 1 <= j < |jobs| ==> jobs[j] == jobs[1..][j - 1];
      jobs[0].processes + rest
  }

  /** The pids of the process table that no job lists, in table order. */
  function PidsWithoutJob(procs: seq<Sysinfo.Process>, jobPids: seq<nat>): (pids: seq<nat>)
    ensures forall pid :: pid in pids <==> pid in Sysinfo.Pids(procs) && pid !in jobPids
  {
    if procs == [] then []
    else
      var rest := PidsWithoutJob(procs[1..], jobPids);
      assert Sysinfo.Pids(procs) == [procs[0].pid] + Sysinfo.Pids(procs[1..]);
      if procs[0].pid in jobPids then rest else [procs[0].pid] + rest
  }

  /** The pids of the process table that some job lists, in table order. */
  function PidsWithJob(procs: seq<Sysinfo.Process>, jobPids: seq<nat>): seq<nat> {
    if procs == [] then []
    else
      var rest := PidsWithJob(procs[1..], jobPids);
      if procs[0].pid in jobPids then [procs[0].pid] + rest else rest
  }

  /**
    The table's memory splits into what the non-job figure counts and what
    the job-listed processes of the table hold: no process is left out or
    counted twice.
  */
  lemma {:induction false} NonJobPartition(sys: Sysinfo.System, procs: seq<Sysinfo.Process>, jobPids: seq<nat>)
    ensures SumMemory(sys, Sysinfo.Pids(procs))
         == SumMemory(sys, PidsWithoutJob(procs, jobPids)) + SumMemory(sys, PidsWithJob(procs, jobPids))
  {
    if procs != [] {
      NonJobPartition(sys, procs[1..], jobPids);
      assert Sysinfo.Pids(procs) == [procs[0].pid] + Sysinfo.Pids(procs[1..]);
      var pid := procs[0].pid;
      if pid in jobPids {
        SumMemoryAppend(sys, [pid], PidsWithJob(procs[1..], jobPids));
      } else {
        SumMemoryAppend(sys, [pid], PidsWithoutJob(procs[1..], jobPids));
      }
      SumMemoryAppend(sys, [pid], Sysinfo.Pids(procs[1..]));
    }
  }

  /**
    `NodeUsage::get_non_job_usage`: the memory of the processes of the
    table that no job lists, truncated to megabytes, with no job id.
  */
  method GetNonJobUsage(sys: Sysinfo.System, jobs: seq<Job.Job>, timestamp: string) returns (usage: NodeUsage)
    ensures usage == NodeUsage(timestamp, 1,
      SumMemory(sys, PidsWithoutJob(sys.processes, JobPids(jobs))) / BYTES_PER_MB, None)
  {
    var jobProcesses: seq<nat> := [];
    var j := 0;
    while j < |jobs|
      invariant 0 <= j <= |jobs|
      invariant jobProcesses + JobPids(jobs[j..]) == JobPids(jobs)
    {
      assert jobs[j..][1..] == jobs[j + 1..];
      jobProcesses := jobProcesses + jobs[j].processes;
      j := j + 1;
    }
    assert jobs[j..] == [];
    assert jobProcesses + [] == jobProcesses;
    assert jobProcesses == JobPids(jobs);
    var withoutJob := PidsWithoutJob(sys.processes, jobProcesses);
    var memAlloc := 0;
    var k := 0;
    while k < |withoutJob|
      invariant 0 <= k <= |withoutJob|
      invariant memAlloc == SumMemory(sys, withoutJob[..k])
    {
      var pid := withoutJob[k];
      match Sysinfo.FindProcess(sys, pid) {
        case Some(process) => memAlloc := memAlloc + process.memory;
        case None =>
      }
      SumMemoryAppend(sys, withoutJob[..k], [pid]);
      assert withoutJob[..k + 1] == withoutJob[..k] + [pid];
      k := k + 1;
    }
    assert withoutJob[..k] == withoutJob;
    usage := NodeUsage(timestamp, 1, memAlloc / BYTES_PER_MB, None);
  }
}
