/**
  The snapshot the collector sends (`collector_data/src/monitoring_info.rs`):
  a `Measurement` holding either the static description of the node
  (`State::Initial`) or the current jobs and their usage (`State::Current`).
  The commands and libraries the collector consults are passed in as what
  they printed or reported for this snapshot.
*/
module Monitoring {
  import opened Wrappers
  import opened Failures
  import Sysinfo
  import Job
  import Node
  import Cpu
  import Gpu
  import GpuTable
  import Collections
  import Text

  datatype StaticInfo = StaticInfo(nodeInfo: Node.NodeInfo, cpuInfo: Cpu.Cpu, gpuInfo: seq<GpuTable.GpuInfo>)

  datatype MonitorInfo = MonitorInfo(
    jobs: seq<Job.Job>,
    nodeUsages: seq<Node.NodeUsage>,
    cpuUsages: seq<Cpu.CpuUsage>,
    gpuUsages: seq<GpuTable.GpuUsage>)

  datatype State = Initial(staticInfo: StaticInfo) | Current(monitorInfo: MonitorInfo)

  /** `time` is in nanoseconds since the UNIX epoch, UTC. */
  datatype Measurement = Measurement(time: int, state: State)

  /** What the collector reads from outside for one snapshot. */
  datatype Sources = Sources(
    sys: Sysinfo.System,
    cpuinfo: string,
    squeueOutput: string,
    listpids: string -> string,
    psOutput: string,
    devices: seq<Gpu.Device>,
    timestamp: string)

  /** The static information of a node whose processors and GPUs could be read. */
  function StaticInfoOf(src: Sources): StaticInfo
    requires Cpu.ReadCpuInfo(Text.Lines(src.cpuinfo)).Ok? && src.devices != []
  {
    StaticInfo(
      Node.GetStaticInfo(src.sys),
      Cpu.Cpu(Cpu.ReadCpuInfo(Text.Lines(src.cpuinfo)).value),
      Gpu.InfoOf(src.devices[..|src.devices| - 1]))
  }

  /**
    `StaticInfo::get_static_info`: the node, its processors and its GPUs;
    a failure reading the processors or the GPUs fails it.
  */
  method GetStaticInfo(src: Sources) returns (r: Result<StaticInfo, Failure>)
    ensures r.Err? <==> Cpu.ReadCpuInfo(Text.Lines(src.cpuinfo)).Err? || src.devices == []
    ensures r.Ok? ==> r.value == StaticInfoOf(src)
  {
    var nodeInfo := Node.GetStaticInfo(src.sys);
    var cpuInfo := Cpu.GetStaticInfo(src.cpuinfo);
    if cpuInfo.Err? {
      return Err(cpuInfo.error);
    }
    var gpuInfo := Gpu.GetStaticInfo(src.devices);
    if gpuInfo.Err? {
      return Err(gpuInfo.error);
    }
    return Ok(StaticInfo(nodeInfo, cpuInfo.value, gpuInfo.value));
  }

  /** The node usage entries of some jobs, in job order. */
  function NodeUsagesOf(sys: Sysinfo.System, jobs: seq<Job.Job>, timestamp: string): (usages: seq<Node.NodeUsage>)
    ensures |usages| == |jobs|
    ensures forall i :: 0 <= i < |jobs| ==> (usages[i] ==
      Node.NodeUsage(timestamp, 1, Node.SumMemory(sys, jobs[i].processes) / Node.BYTES_PER_MB, Some(jobs[i].id)))
  {
    seq(|jobs|, i requires 0 <= i < |jobs| =>
      Node.NodeUsage(timestamp, 1, Node.SumMemory(sys, jobs[i].processes) / Node.BYTES_PER_MB, Some(jobs[i].id)))
  }

  /** The CPU usage entries of some jobs, job after job. */
  function CpuUsagesOf(sys: Sysinfo.System, psr: map<nat, nat>, jobs: seq<Job.Job>): seq<Cpu.CpuUsage> {
    if jobs == [] then []
    else
      var job := jobs[|jobs| - 1];
      CpuUsagesOf(sys, psr, jobs[..|jobs| - 1]) + Cpu.UsagesOf(Cpu.CpuIdsOf(sys, psr, job.processes), Some(job.id))
  }

  /** The GPU usage entries of some jobs, job after job. */
  function GpuUsagesOf(table: GpuTable.PidTable, jobs: seq<Job.Job>, timestamp: string): seq<GpuTable.GpuUsage> {
    if jobs == [] then []
    else
      var job := jobs[|jobs| - 1];
      GpuUsagesOf(table, jobs[..|jobs| - 1], timestamp)
        + Gpu.UsagesAsWritten(table, job.processes, Some(job.id), timestamp)
  }

  lemma NodeUsagesSnoc(sys: Sysinfo.System, jobs: seq<Job.Job>, k: nat, timestamp: string)
    requires k < |jobs|
    ensures NodeUsagesOf(sys, jobs[..k + 1], timestamp) == NodeUsagesOf(sys, jobs[..k], timestamp)
      + [Node.NodeUsage(timestamp, 1, Node.SumMemory(sys, jobs[k].processes) / Node.BYTES_PER_MB, Some(jobs[k].id))]
  {
  }

  lemma CpuUsagesSnoc(sys: Sysinfo.System, psr: map<nat, nat>, jobs: seq<Job.Job>, k: nat)
    requires k < |jobs|
    ensures CpuUsagesOf(sys, psr, jobs[..k + 1]) == CpuUsagesOf(sys, psr, jobs[..k])
      + Cpu.UsagesOf(Cpu.CpuIdsOf(sys, psr, jobs[k].processes), Some(jobs[k].id))
  {
    assert jobs[..k + 1][..k] == jobs[..k];
  }

  lemma GpuUsagesSnoc(table: GpuTable.PidTable, jobs: seq<Job.Job>, k: nat, timestamp: string)
    requires k < |jobs|
    ensures GpuUsagesOf(table, jobs[..k + 1], timestamp) == GpuUsagesOf(table, jobs[..k], timestamp)
      + Gpu.UsagesAsWritten(table, jobs[k].processes, Some(jobs[k].id), timestamp)
  {
    assert jobs[..k + 1][..k] == jobs[..k];
  }

  /** The jobs `squeue` and `scontrol listpids` report cannot be read. */
  predicate JobsFail(src: Sources) {
    Job.SqueueJobs(src.squeueOutput).Err?
    || exists i :: 0 <= i < |Job.SqueueJobs(src.squeueOutput).value|
         && Job.ProcessesOfJob(src.listpids(Job.SqueueJobs(src.squeueOutput).value[i].id)).Err?
  }

  /** The jobs `get_jobs` returns when no lookup panics: one per `squeue` line, in order, each with its listed processes. */
  function JobsOf(src: Sources): (jobs: seq<Job.Job>)
    requires !JobsFail(src)
    ensures |jobs| == |Job.SqueueJobs(src.squeueOutput).value|
  {
    var raws := Job.SqueueJobs(src.squeueOutput).value;
    seq(|raws|, i requires 0 <= i < |raws| =>
      Job.BuildJob(raws[i], Job.ProcessesOfJob(src.listpids(raws[i].id)).value))
  }

  /**
    The snapshot of a node whose jobs, processor placement and GPUs could all
    be read: the jobs, then per job its node, CPU and GPU usage in job order,
    then the usage of the processes of no job.
  */
  function MonitorInfoOf(src: Sources): MonitorInfo
    requires !JobsFail(src) && Cpu.GetPidPsr(src.psOutput).Ok? && src.devices != []
  {
    var jobs := JobsOf(src);
    var psr := Cpu.GetPidPsr(src.psOutput).value;
    var table := Collections.MapOfPairs(Gpu.Samples(src.devices[..|src.devices| - 1]));
    var withoutJob := Node.PidsWithoutJob(src.sys.processes, Node.JobPids(jobs));
    MonitorInfo(
      jobs,
      NodeUsagesOf(src.sys, jobs, src.timestamp)
        + [Node.NodeUsage(src.timestamp, 1, Node.SumMemory(src.sys, withoutJob) / Node.BYTES_PER_MB, None)],
      CpuUsagesOf(src.sys, psr, jobs) + Cpu.UsagesOf(Cpu.CpuIdsOf(src.sys, psr, withoutJob), None),
      GpuUsagesOf(table, jobs, src.timestamp) + Gpu.UsagesAsWritten(table, withoutJob, None, src.timestamp))
  }

  /**
    `MonitorInfo::get_monitoring_info`: the jobs, then per job its node, CPU
    and GPU usage in job order, then the usage of the processes of no job
    last; any failure fails the whole snapshot.
  */
  method GetMonitoringInfo(src: Sources) returns (r: Result<MonitorInfo, Failure>)
    ensures r.Err? <==>
      JobsFail(src) || Cpu.GetPidPsr(src.psOutput).Err? || src.devices == []
    ensures r.Ok? ==> r.value == MonitorInfoOf(src)
  {
    var jobsResult := Job.GetJobs(src.squeueOutput, src.listpids);
    if jobsResult.Err? {
      return Err(jobsResult.error);
    }
    var jobs := jobsResult.value;
    assert jobs == JobsOf(src);
    var perJob := JobUsages(src, jobs);
    if perJob.Err? {
      return Err(perJob.error);
    }
    var (nodeUsages, cpuUsages, gpuUsages) := perJob.value;
    var nodeUsage := Node.GetNonJobUsage(src.sys, jobs, src.timestamp);
    nodeUsages := nodeUsages + [nodeUsage];
    var cpuUsage := Cpu.GetNonJobUsage(src.sys, jobs, src.psOutput);
    if cpuUsage.Err? {
      return Err(cpuUsage.error);
    }
    cpuUsages := cpuUsages + cpuUsage.value;
    var gpuUsage := Gpu.GetNonJobUsage(src.sys, jobs, src.devices, src.timestamp);
    if gpuUsage.Err? {
      return Err(gpuUsage.error);
    }
    gpuUsages := gpuUsages + gpuUsage.value;
    return Ok(MonitorInfo(jobs, nodeUsages, cpuUsages, gpuUsages));
  }

  /** The `for job in &jobs` loop of `get_monitoring_info`. */
  method JobUsages(src: Sources, jobs: seq<Job.Job>)
    returns (r: Result<(seq<Node.NodeUsage>, seq<Cpu.CpuUsage>, seq<GpuTable.GpuUsage>), Failure>)
    ensures r.Err? <==> jobs != [] && (Cpu.GetPidPsr(src.psOutput).Err? || src.devices == [])
    ensures r.Ok? && jobs != [] ==>
      var psr := Cpu.GetPidPsr(src.psOutput).value;
      var table := Collections.MapOfPairs(Gpu.Samples(src.devices[..|src.devices| - 1]));
      r.value == (NodeUsagesOf(src.sys, jobs, src.timestamp), CpuUsagesOf(src.sys, psr, jobs),
                  GpuUsagesOf(table, jobs, src.timestamp))
    ensures r.Ok? && jobs == [] ==> r.value == ([], [], [])
  {
    ghost var psr := Cpu.GetPidPsr(src.psOutput);
    ghost var table := if src.devices == [] then map[]
                       else Collections.MapOfPairs(Gpu.Samples(src.devices[..|src.devices| - 1]));
    var nodeUsages: seq<Node.NodeUsage> := [];
    var cpuUsages: seq<Cpu.CpuUsage> := [];
    var gpuUsages: seq<GpuTable.GpuUsage> := [];
    var k := 0;
    while k < |jobs|
      invariant 0 <= k <= |jobs|
      invariant k > 0 ==> psr.Ok? && src.devices != []
      invariant nodeUsages == NodeUsagesOf(src.sys, jobs[..k], src.timestamp)
      invariant k > 0 ==> cpuUsages == CpuUsagesOf(src.sys, psr.value, jobs[..k])
      invariant k > 0 ==> gpuUsages == GpuUsagesOf(table, jobs[..k], src.timestamp)
      invariant k == 0 ==> cpuUsages == [] && gpuUsages == []
    {
      var job := jobs[k];
      NodeUsagesSnoc(src.sys, jobs, k, src.timestamp);
      var nodeUsage := Node.GetUsagePerJob(src.sys, job, src.timestamp);
      nodeUsages := nodeUsages + [nodeUsage];
      var cpuUsage := Cpu.GetUsagePerJob(src.sys, job, src.psOutput);
      if cpuUsage.Err? {
        return Err(cpuUsage.error);
      }
      CpuUsagesSnoc(src.sys, psr.value, jobs, k);
      cpuUsages := cpuUsages + cpuUsage.value;
      var gpuUsage := Gpu.GetUsagePerJob(job, src.devices, src.timestamp);
      if gpuUsage.Err? {
        return Err(gpuUsage.error);
      }
      GpuUsagesSnoc(table, jobs, k, src.timestamp);
      gpuUsages := gpuUsages + gpuUsage.value;
      k := k + 1;
    }
    assert jobs[..k] == jobs;
    return Ok((nodeUsages, cpuUsages, gpuUsages));
  }

  /** `State::get_starting_info`: the static information, stamped with `now` (its JSON text is not modelled). */
  method GetStartingInfo(src: Sources, now: int) returns (r: Result<Measurement, Failure>)
    ensures r.Err? <==> Cpu.ReadCpuInfo(Text.Lines(src.cpuinfo)).Err? || src.devices == []
    ensures r.Ok? ==> r.value == Measurement(now, Initial(StaticInfoOf(src)))
  {
    var info := GetStaticInfo(src);
    if info.Err? {
      return Err(info.error);
    }
    return Ok(Measurement(now, Initial(info.value)));
  }

  /** `State::get_monitoring_data`: the current information, stamped with `now`. */
  method GetMonitoringData(src: Sources, now: int) returns (r: Result<Measurement, Failure>)
    ensures r.Err? <==> JobsFail(src) || Cpu.GetPidPsr(src.psOutput).Err? || src.devices == []
    ensures r.Ok? ==> r.value == Measurement(now, Current(MonitorInfoOf(src)))
    ensures r.Ok? ==> |r.value.state.monitorInfo.nodeUsages| == |r.value.state.monitorInfo.jobs| + 1
    ensures r.Ok? ==> r.value.state.monitorInfo.nodeUsages[|r.value.state.monitorInfo.jobs|].jobId.None?
  {
    var info := GetMonitoringInfo(src);
    if info.Err? {
      return Err(info.error);
    }
    return Ok(Measurement(now, Current(info.value)));
  }
}
