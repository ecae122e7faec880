/**
  The GPU figures collected through NVML (`collector_data/src/gpu.rs`): the
  devices with their total memory, and the per-GPU memory of a job's
  processes and of the processes of no job.
*/
module Gpu {
  import opened Wrappers
  import opened Failures
  import Text
  import Collections
  import Job
  import Node
  import Sysinfo
  import opened GpuTable

  /** `UsedGpuMemory`: `Used(bytes)`, or `Unavailable` as `None`. */
  datatype ProcessInfo = ProcessInfo(pid: nat, usedGpuMemory: Option<nat>)

  /** What NVML reports of one device: its uuid, total memory in bytes and compute processes. */
  datatype Device = Device(uuid: string, memoryTotal: nat, processes: seq<ProcessInfo>)

  const BYTES_PER_MB := 1_000_000
  const U32_MODULUS := 0x1_0000_0000

  /** `(bytes / 1000000) as u32`: megabytes, truncated to 32 bits. */
  function ToMb(bytes: nat): (mb: nat)
    ensures mb <= Text.U32_MAX
    ensures bytes < BYTES_PER_MB * U32_MODULUS ==> mb == bytes / BYTES_PER_MB
  {
    (bytes / BYTES_PER_MB) % U32_MODULUS
  }

  /**
    The devices enumerated: `0..device_count - 1` leaves the last device
    out, and with no device at all the `u32` subtraction overflows, which
    panics.
  */
  function Enumerated(devices: seq<Device>): (r: Result<seq<Device>, Failure>)
    ensures r.Err? <==> devices == []
    ensures r.Ok? ==> r.value == devices[..|devices| - 1]
  {
    if devices == [] then Err(Panic("attempt to subtract with overflow"))
    else Ok(devices[..|devices| - 1])
  }

  /** The static information of some devices, in order. */
  function InfoOf(devices: seq<Device>): (infos: seq<GpuInfo>)
    ensures |infos| == |devices|
    ensures forall i :: 0 <= i < |devices| ==>
      infos[i] == GpuInfo(devices[i].uuid, ToMb(devices[i].memoryTotal))
  {
    seq(|devices|, i requires 0 <= i < |devices| => GpuInfo(devices[i].uuid, ToMb(devices[i].memoryTotal)))
  }

  /**
    `GpuInfo::get_static_info`, given the devices NVML lists: the uuid and
    memory of every enumerated device.
  */
  method GetStaticInfo(devices: seq<Device>) returns (r: Result<seq<GpuInfo>, Failure>)
    ensures Enumerated(devices).Err? ==> r.Err?
    ensures Enumerated(devices).Ok? ==> r == Ok(InfoOf(Enumerated(devices).value))
  {
    if |devices| == 0 {
      return Err(Panic("attempt to subtract with overflow"));
    }
    var enumerated: seq<Device> := [];
    var i := 0;
    while i < |devices| - 1
      invariant 0 <= i <= |devices| - 1
      invariant enumerated == devices[..i]
    {
      enumerated := enumerated + [devices[i]];
      i := i + 1;
    }
    var staticInfo: seq<GpuInfo> := [];
    var k := 0;
    while k < |enumerated|
      invariant 0 <= k <= |enumerated|
      invariant staticInfo == InfoOf(enumerated[..k])
    {
      staticInfo := staticInfo + [GpuInfo(enumerated[k].uuid, ToMb(enumerated[k].memoryTotal))];
      k := k + 1;
    }
    assert enumerated[..k] == enumerated;
    return Ok(staticInfo);
  }

  /** The intended static information covers every device. */
  function StaticInfoIntended(devices: seq<Device>): (infos: seq<GpuInfo>)
    ensures |infos| == |devices|
    ensures forall i :: 0 <= i < |devices| ==> infos[i].id == devices[i].uuid
  {
    InfoOf(devices)
  }

  // ---------------------------------------------------------------------
  // Usage
  // ---------------------------------------------------------------------

  /** The memory of one process in MB; `Unavailable` counts as 0. */
  function UsedMb(p: ProcessInfo): nat {
    match p.usedGpuMemory
    case None => 0
    case Some(bytes) => ToMb(bytes)
  }

  /** `process_util_sample`: each device's processes with its uuid, device after device. */
  function Samples(devices: seq<Device>): (samples: seq<(nat, (string, nat))>)
  {
    if devices == [] then []
    else Samples(devices[..|devices| - 1]) + DeviceSamples(devices[|devices| - 1])
  }

  function DeviceSamples(d: Device): (samples: seq<(nat, (string, nat))>)
    ensures |samples| == |d.processes|
    ensures forall i :: 0 <= i < |d.processes| ==> samples[i] == (d.processes[i].pid, (d.uuid, UsedMb(d.processes[i])))
  {
    seq(|d.processes|, i requires 0 <= i < |d.processes| => (d.processes[i].pid, (d.uuid, UsedMb(d.processes[i]))))
  }

  /**
    `get_gpu_usage_per_pid`, given the devices NVML lists: every process of
    an enumerated device, with the uuid of the device and its memory; a pid
    on several devices keeps the last.
  */
  method GetGpuUsagePerPid(devices: seq<Device>) returns (r: Result<PidTable, Failure>)
    ensures Enumerated(devices).Err? ==> r.Err?
    ensures Enumerated(devices).Ok? ==> r == Ok(Collections.MapOfPairs(Samples(Enumerated(devices).value)))
  {
    if |devices| == 0 {
      return Err(Panic("attempt to subtract with overflow"));
    }
    var sample: seq<(nat, (string, nat))> := [];
    var i := 0;
    while i < |devices| - 1
      invariant 0 <= i <= |devices| - 1
      invariant sample == Samples(devices[..i])
    {
      assert devices[..i + 1][..i] == devices[..i];
      sample := sample + DeviceSamples(devices[i]);
      i := i + 1;
    }
    var table: PidTable := map[];
    var k := 0;
    while k < |sample|
      invariant 0 <= k <= |sample|
      invariant table == Collections.MapOfPairs(sample[..k])
    {
      assert sample[..k + 1][..k] == sample[..k];
      table := table[sample[k].0 := sample[k].1];
      k := k + 1;
    }
    assert sample[..k] == sample;
    return Ok(table);
  }

  /** A process that runs only on the last device is missing from the table as written. */
  lemma LastDeviceProcessUnseen(devices: seq<Device>, pid: nat)
    requires devices != []
    requires forall i, q :: 0 <= i < |devices| - 1 && 0 <= q < |devices[i].processes| ==>
      devices[i].processes[q].pid != pid
    ensures pid !in Collections.MapOfPairs(Samples(devices[..|devices| - 1]))
  {
    var enumerated := devices[..|devices| - 1];
    var samples := Samples(enumerated);
    forall j | 0 <= j < |samples| ensures samples[j].0 != pid {
      SampleFromProcess(enumerated, j);
      var i, q :| 0 <= i < |enumerated| && 0 <= q < |enumerated[i].processes|
        && enumerated[i].processes[q].pid == samples[j].0;
      assert enumerated[i] == devices[i];
    }
    Collections.MapOfPairsKeys(samples);
  }

  /** The intended table: the processes of every device, the last one included. */
  function PidTableIntended(devices: seq<Device>): PidTable {
    Collections.MapOfPairs(Samples(devices))
  }

  /** Intended: every process of every device is in the table. */
  lemma EveryDeviceProcessSeen(devices: seq<Device>, i: nat, q: nat)
    requires i < |devices| && q < |devices[i].processes|
    ensures devices[i].processes[q].pid in PidTableIntended(devices)
  {
    ProcessSampled(devices, i, q);
    Collections.MapOfPairsKeys(Samples(devices));
  }

  /** Every process of a device has a sample. */
  lemma {:induction false} ProcessSampled(devices: seq<Device>, i: nat, q: nat)
    requires i < |devices| && q < |devices[i].processes|
    ensures exists j :: 0 <= j < |Samples(devices)| && Samples(devices)[j].0 == devices[i].processes[q].pid
  {
    var init := devices[..|devices| - 1];
    var s := Samples(devices);
    assert s == Samples(init) + DeviceSamples(devices[|devices| - 1]);
    if i < |init| {
      assert init[i] == devices[i];
      ProcessSampled(init, i, q);
      var j :| 0 <= j < |Samples(init)| && Samples(init)[j].0 == devices[i].processes[q].pid;
      assert s[j] == Samples(init)[j];
    } else {
      assert s[|Samples(init)| + q] == DeviceSamples(devices[i])[q];
    }
  }

  /** Every sample comes from a process of a device. */
  lemma {:induction false} SampleFromProcess(devices: seq<Device>, j: nat)
    requires j < |Samples(devices)|
    ensures exists i, q :: (0 <= i < |devices| && 0 <= q < |devices[i].processes|
                            && devices[i].processes[q].pid == Samples(devices)[j].0)
  {
    var init := devices[..|devices| - 1];
    var s := Samples(devices);
    var si := Samples(init);
    assert s == si + DeviceSamples(devices[|devices| - 1]);
    if j < |si| {
      SampleFromProcess(init, j);
      assert s[j] == si[j];
      var i, q :| 0 <= i < |init| && 0 <= q < |init[i].processes| && init[i].processes[q].pid == si[j].0;
      assert init[i] == devices[i];
    } else {
      var q := j - |si|;
      assert s[j] == DeviceSamples(devices[|devices| - 1])[q];
      assert devices[|devices| - 1].processes[q].pid == s[j].0;
    }
  }

  /**
    The memory gpu.rs reports for GPU `g` as written: the first pid met on
    it creates the entry with its memory and then adds that memory again,
    so it is counted twice.
  */
  function MemOnAsWritten(table: PidTable, pids: seq<nat>, g: string): nat {
    MemOn(table, pids, g) + FirstMemOn(table, pids, g)
  }

  /** The memory of the first listed pid on GPU `g`, or 0 when none is. */
  function FirstMemOn(table: PidTable, pids: seq<nat>, g: string): nat {
    if pids == [] then 0
    else
      var init := pids[..|pids| - 1];
      var pid := pids[|pids| - 1];
      if g in GpuIdsOf(table, init) then FirstMemOn(table, init, g)
      else if OnGpu(table, pid, g) then table[pid].1
      else 0
  }

  /** The entries gpu.rs reports as written. */
  function UsagesAsWritten(table: PidTable, pids: seq<nat>, jobId: Option<string>, timestamp: string)
    : (usages: seq<GpuUsage>)
    ensures |usages| == |GpuIdsOf(table, pids)|
    ensures forall i :: 0 <= i < |usages| ==> (usages[i] ==
      GpuUsage(timestamp, GpuIdsOf(table, pids)[i], MemOnAsWritten(table, pids, GpuIdsOf(table, pids)[i]), jobId))
  {
    var ids := GpuIdsOf(table, pids);
    seq(|ids|, i requires 0 <= i < |ids| => GpuUsage(timestamp, ids[i], MemOnAsWritten(table, pids, ids[i]), jobId))
  }

  /**
    The `for pid in ...` loop of gpu.rs as written: a GPU's entry is created
    with the first pid's memory, and then every pid on it, the first
    included, adds its memory.
  */
  method CollectUsagesAsWritten(table: PidTable, pids: seq<nat>, jobId: Option<string>, timestamp: string)
    returns (usages: seq<GpuUsage>)
    ensures usages == UsagesAsWritten(table, pids, jobId, timestamp)
  {
    var alloc: map<string, nat> := map[];
    var order: seq<string> := [];
    var k := 0;
    while k < |pids|
      invariant 0 <= k <= |pids|
      invariant order == GpuIdsOf(table, pids[..k])
      invariant forall g :: g in alloc <==> g in order
      invariant forall g :: g in alloc ==> alloc[g] == MemOnAsWritten(table, pids[..k], g)
    {
      var pid := pids[k];
      assert pids[..k + 1][..k] == pids[..k];
      if pid in table {
        var g := table[pid].0;
        if g !in alloc {
          MemOnUnlisted(table, pids[..k], g);
          alloc := alloc[g := table[pid].1];
          order := order + [g];
        }
        alloc := alloc[g := alloc[g] + table[pid].1];
      }
      k := k + 1;
    }
    assert pids[..k] == pids;
    usages := seq(|order|, i requires 0 <= i < |order| => GpuUsage(timestamp, order[i], alloc[order[i]], jobId));
  }

  /** As written, a single process holding `mem` MB on a GPU is reported with twice that. */
  lemma SingleProcessCountedTwice(pid: nat, g: string, mem: nat, jobId: Option<string>, timestamp: string)
    ensures UsagesAsWritten(map[pid := (g, mem)], [pid], jobId, timestamp) == [GpuUsage(timestamp, g, 2 * mem, jobId)]
    ensures UsagesOf(map[pid := (g, mem)], [pid], jobId, timestamp) == [GpuUsage(timestamp, g, mem, jobId)]
  {
    var table := map[pid := (g, mem)];
    assert [pid][..0] == [];
    assert GpuIdsOf(table, [pid]) == [g];
    assert MemOn(table, [pid], g) == mem;
    assert FirstMemOn(table, [pid], g) == mem;
  }

  /**
    `GpuUsage::get_usage_per_job` as written, given the devices NVML lists:
    the entries of the job's processes, with the first pid on each GPU
    counted twice.
  */
  method GetUsagePerJob(job: Job.Job, devices: seq<Device>, timestamp: string)
    returns (r: Result<seq<GpuUsage>, Failure>)
    ensures Enumerated(devices).Err? ==> r.Err?
    ensures Enumerated(devices).Ok? ==>
      r == Ok(UsagesAsWritten(Collections.MapOfPairs(Samples(Enumerated(devices).value)), job.processes, Some(job.id), timestamp))
  {
    var table := GetGpuUsagePerPid(devices);
    if table.Err? {
      return Err(table.error);
    }
    var usages := CollectUsagesAsWritten(table.value, job.processes, Some(job.id), timestamp);
    return Ok(usages);
  }

  /**
    `GpuUsage::get_non_job_usage` as written: the same for the processes of
    the table listed by no job, with no job id.
  */
  method GetNonJobUsage(sys: Sysinfo.System, jobs: seq<Job.Job>, devices: seq<Device>, timestamp: string)
    returns (r: Result<seq<GpuUsage>, Failure>)
    ensures Enumerated(devices).Err? ==> r.Err?
    ensures Enumerated(devices).Ok? ==>
      r == Ok(UsagesAsWritten(Collections.MapOfPairs(Samples(Enumerated(devices).value)),
                              Node.PidsWithoutJob(sys.processes, Node.JobPids(jobs)), None, timestamp))
  {
    var withoutJob := Node.PidsWithoutJob(sys.processes, Node.JobPids(jobs));
    var table := GetGpuUsagePerPid(devices);
    if table.Err? {
      return Err(table.error);
    }
    var usages := CollectUsagesAsWritten(table.value, withoutJob, None, timestamp);
    return Ok(usages);
  }
}
