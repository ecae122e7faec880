/**
  The GPU figures collected from `nvidia-smi` and `sreport` output
  (`collector_data/src/gpu_dep.rs`): the GPUs with their total memory, the
  per-GPU memory of a job's processes and of the processes of no job, and
  the GPU time SLURM accounts to each user.
*/
module GpuDep {
  import opened Wrappers
  import opened Failures
  import Text
  import Collections
  import Job
  import Node
  import Sysinfo
  import opened GpuTable

  const OUT_OF_BOUNDS := "index out of bounds"
  const UNWRAP_ERR := "called `Result::unwrap()` on an `Err` value"

  // ---------------------------------------------------------------------
  // nvidia-smi --query-gpu=gpu_uuid,memory.total --format=csv,noheader
  // ---------------------------------------------------------------------

  /**
    One GPU line, `<uuid>, <MiB> MiB`: the first word without its commas,
    and the second word as a `u32`; a missing word or a bad number panics.
  */
  function GpuInfoOfLine(line: string): (r: Result<GpuInfo, Failure>)
    ensures r.Err? ==> r.error.Panic?
  {
    var e := Text.SplitWhitespace(line);
    if |e| < 2 then Err(Panic(OUT_OF_BOUNDS))
    else match Text.ParseU32(e[1])
      case None => Err(Panic(UNWRAP_ERR))
      case Some(mem) => Ok(GpuInfo(Text.Replace(e[0], ',', ""), mem as nat))
  }

  /** `GpuInfo::get_static_info`, given what `nvidia-smi` printed: one GPU per line, in order. */
  function GetStaticInfo(nvidiaSmiOutput: string): (r: Result<seq<GpuInfo>, Failure>)
    ensures r.Err? ==> r.error.Panic?
  {
    Traverse(GpuInfoOfLine, Text.Lines(nvidiaSmiOutput))
  }

  /** A GPU line as `nvidia-smi` prints it gives back the uuid and the memory. */
  lemma GpuInfoOfRendered(uuid: string, mem: nat)
    requires uuid != [] && Text.NoWhitespace(uuid) && ',' !in uuid && mem <= Text.U32_MAX
    ensures GpuInfoOfLine(Text.Unwords([uuid + ",", Text.NatToString(mem), "MiB"])) == Ok(GpuInfo(uuid, mem))
  {
    var tokens := [uuid + ",", Text.NatToString(mem), "MiB"];
    assert Text.NoWhitespace(uuid + ",") by {
      assert forall i :: 0 <= i < |uuid| ==> (uuid + ",")[i] == uuid[i];
    }
    Text.NatToStringIsWord(mem);
    assert Text.NoWhitespace("MiB");
    Text.SplitWhitespaceUnwords(tokens);
    Text.ParseIntOfNatToString(mem, false, 0, Text.U32_MAX);
    Text.DropTrailingComma(uuid);
  }

  // ---------------------------------------------------------------------
  // nvidia-smi --query-compute-apps=pid,gpu_uuid,used_gpu_memory --format=csv,noheader
  // ---------------------------------------------------------------------

  /**
    One process line, `<pid>, <uuid>, <MiB> MiB`: the first and third words
    without commas as `u32`s and the second without commas as the uuid; a
    missing word or a bad number panics.
  */
  function PidSampleOfLine(line: string): (r: Result<(nat, (string, nat)), Failure>)
    ensures r.Err? ==> r.error.Panic?
  {
    var e := Text.SplitWhitespace(line);
    if |e| == 0 then Err(Panic(OUT_OF_BOUNDS))
    else match Text.ParseU32(Text.Replace(e[0], ',', ""))
      case None => Err(Panic(UNWRAP_ERR))
      case Some(pid) =>
        if |e| < 3 then Err(Panic(OUT_OF_BOUNDS))
        else match Text.ParseU32(Text.Replace(e[2], ',', ""))
          case None => Err(Panic(UNWRAP_ERR))
          case Some(mem) => Ok((pid as nat, (Text.Replace(e[1], ',', ""), mem as nat)))
  }

  /**
    `get_gpu_usage_per_pid`: the table of the process lines; a pid listed
    twice keeps its last line.
  */
  function GpuUsagePerPid(nvidiaSmiOutput: string): (r: Result<PidTable, Failure>)
    ensures r.Err? ==> r.error.Panic?
  {
    match Traverse(PidSampleOfLine, Text.Lines(nvidiaSmiOutput))
    case Err(f) => Err(f)
    case Ok(samples) => Ok(Collections.MapOfPairs(samples))
  }

  /** A process line as `nvidia-smi` prints it gives back pid, uuid and memory. */
  lemma PidSampleOfRendered(pid: nat, uuid: string, mem: nat)
    requires pid <= Text.U32_MAX && mem <= Text.U32_MAX
    requires uuid != [] && Text.NoWhitespace(uuid) && ',' !in uuid
    ensures PidSampleOfLine(Text.Unwords([Text.NatToString(pid) + ",", uuid + ",", Text.NatToString(mem), "MiB"]))
      == Ok((pid, (uuid, mem)))
  {
    var p := Text.NatToString(pid);
    var m := Text.NatToString(mem);
    var tokens := [p + ",", uuid + ",", m, "MiB"];
    assert Text.SplitWhitespace(Text.Unwords(tokens)) == tokens by {
      Text.NatToStringIsWord(pid);
      Text.NatToStringIsWord(mem);
      assert Text.NoWhitespace(p + ",") by {
        assert forall i :: 0 <= i < |p| ==> (p + ",")[i] == p[i];
      }
      assert Text.NoWhitespace(uuid + ",") by {
        assert forall i :: 0 <= i < |uuid| ==> (uuid + ",")[i] == uuid[i];
      }
      assert Text.NoWhitespace("MiB");
      Text.SplitWhitespaceUnwords(tokens);
    }
    assert Text.ParseU32(Text.Replace(p + ",", ',', "")) == Some(pid) by {
      assert !Text.IsDigit(',');
      Text.DropTrailingComma(p);
      Text.ParseIntOfNatToString(pid, false, 0, Text.U32_MAX);
    }
    assert Text.ParseU32(Text.Replace(m, ',', "")) == Some(mem) by {
      assert !Text.IsDigit(',');
      Text.ReplaceRemoves(m, ',');
      Text.ParseIntOfNatToString(mem, false, 0, Text.U32_MAX);
    }
    assert Text.Replace(uuid + ",", ',', "") == uuid by {
      Text.DropTrailingComma(uuid);
    }
    PidSampleOfWords(Text.Unwords(tokens), pid, uuid, mem);
  }

  /** A line whose words give a pid, a uuid and a memory figure is read as that sample. */
  lemma PidSampleOfWords(line: string, pid: nat, uuid: string, mem: nat)
    requires |Text.SplitWhitespace(line)| >= 3
    requires Text.ParseU32(Text.Replace(Text.SplitWhitespace(line)[0], ',', "")) == Some(pid)
    requires Text.Replace(Text.SplitWhitespace(line)[1], ',', "") == uuid
    requires Text.ParseU32(Text.Replace(Text.SplitWhitespace(line)[2], ',', "")) == Some(mem)
    ensures PidSampleOfLine(line) == Ok((pid, (uuid, mem)))
  {
  }

  /**
    `GpuUsage::get_usage_per_job`: one entry per GPU the job's processes
    use, with the memory they hold there, tagged with the job's id.
  */
  method GetUsagePerJob(job: Job.Job, nvidiaSmiOutput: string, timestamp: string)
    returns (r: Result<seq<GpuUsage>, Failure>)
    ensures GpuUsagePerPid(nvidiaSmiOutput).Err? ==> r.Err?
    ensures GpuUsagePerPid(nvidiaSmiOutput).Ok? ==>
      r == Ok(UsagesOf(GpuUsagePerPid(nvidiaSmiOutput).value, job.processes, Some(job.id), timestamp))
  {
    var table := GpuUsagePerPid(nvidiaSmiOutput);
    if table.Err? {
      return Err(table.error);
    }
    var usages := CollectUsages(table.value, job.processes, Some(job.id), timestamp);
    return Ok(usages);
  }

  /**
    `GpuUsage::get_non_job_usage`: the same for the processes of the table
    listed by no job, with no job id.
  */
  method GetNonJobUsage(sys: Sysinfo.System, jobs: seq<Job.Job>, nvidiaSmiOutput: string, timestamp: string)
    returns (r: Result<seq<GpuUsage>, Failure>)
    ensures GpuUsagePerPid(nvidiaSmiOutput).Err? ==> r.Err?
    ensures GpuUsagePerPid(nvidiaSmiOutput).Ok? ==>
      r == Ok(UsagesOf(GpuUsagePerPid(nvidiaSmiOutput).value,
                       Node.PidsWithoutJob(sys.processes, Node.JobPids(jobs)), None, timestamp))
  {
    var withoutJob := Node.PidsWithoutJob(sys.processes, Node.JobPids(jobs));
    var table := GpuUsagePerPid(nvidiaSmiOutput);
    if table.Err? {
      return Err(table.error);
    }
    var usages := CollectUsages(table.value, withoutJob, None, timestamp);
    return Ok(usages);
  }

  // ---------------------------------------------------------------------
  // sreport -t Seconds -T gres/gpu cluster UserUtilizationByAccount format=Login,Used
  // ---------------------------------------------------------------------

  /** What a finished command left: its exit status, standard output and standard error. */
  datatype CommandOutput = CommandOutput(success: bool, stdout: string, stderr: string)

  /** The largest number of seconds a `chrono::TimeDelta` holds (`i64::MAX` milliseconds). */
  const SECS_MAX: int := Text.I64_MAX / 1000

  /**
    Line `i` of the report, `user|seconds`: exactly two `|`-separated fields,
    else an error naming the line; the seconds must be an `i64`, else an
    error; `Duration::seconds` panics on a count beyond `SECS_MAX`.
  */
  function SreportLine(entry: (nat, string)): (r: Result<(string, int), Failure>)
    ensures r.Ok? ==> -SECS_MAX <= r.value.1 <= SECS_MAX
  {
    var (i, line) := entry;
    var fields := Text.Split(line, '|');
    if |fields| != 2 then
      Err(Error("line " + Text.NatToString(i) + ": (expected `user|time`, got " + line + ")"))
    else match Text.ParseI64(fields[1])
      case None => Err(Error("line " + Text.NatToString(i) + ", parsing seconds"))
      case Some(secs) =>
        if -SECS_MAX <= secs <= SECS_MAX then Ok((fields[0], secs))
        else Err(Panic("TimeDelta::seconds out of bounds"))
  }

  /** `enumerate()`: each line with its index. */
  function Enumerate(lines: seq<string>): (entries: seq<(nat, string)>)
    ensures |entries| == |lines|
    ensures forall i :: 0 <= i < |lines| ==> entries[i] == (i, lines[i])
  {
    seq(|lines|, i requires 0 <= i < |lines| => (i, lines[i]))
  }

  /** The lines of the trimmed report. */
  function ReportLines(sreport: CommandOutput): seq<string> {
    Text.Lines(Text.Trim(sreport.stdout))
  }

  /**
    `AllGpuTimesReportedBySlurm::query`, given the finished `sreport`: the
    seconds of each user, a user listed twice keeping its last line.
  */
  function QueryGpuTimes(sreport: CommandOutput): (r: Result<map<string, int>, Failure>)
    ensures !sreport.success ==> r.Err? && r.error.Error?
  {
    if !sreport.success then
      Err(Error("sreport failed with status; stderr: " + Text.Trim(sreport.stderr)))
    else match Traverse(SreportLine, Enumerate(ReportLines(sreport)))
      case Err(f) => Err(f)
      case Ok(pairs) => Ok(Collections.MapOfPairs(pairs))
  }

  /** A report line `user|seconds` gives back the user and the seconds. */
  lemma SreportLineOfRendered(i: nat, user: string, secs: nat)
    requires '|' !in user && secs <= SECS_MAX
    ensures SreportLine((i, user + "|" + Text.NatToString(secs))) == Ok((user, secs))
  {
    var s := Text.NatToString(secs);
    assert '|' !in s by {
      assert !Text.IsDigit('|');
    }
    assert Text.Join([user, s], '|') == user + "|" + s by {
      assert [user, s][1..] == [s];
    }
    Text.SplitJoin([user, s], '|');
    Text.ParseIntOfNatToString(secs, true, Text.I64_MIN, Text.I64_MAX);
  }

  /**
    The first line that is not `user|seconds` ends the query with an error
    naming that line, whatever follows it.
  */
  lemma BadReportLineAborts(sreport: CommandOutput, k: nat)
    requires sreport.success
    requires k < |ReportLines(sreport)|
    requires forall i :: 0 <= i < k ==> SreportLine((i, ReportLines(sreport)[i])).Ok?
    requires |Text.Split(ReportLines(sreport)[k], '|')| != 2
    ensures QueryGpuTimes(sreport)
      == Err(Error("line " + Text.NatToString(k) + ": (expected `user|time`, got " + ReportLines(sreport)[k] + ")"))
  {
    var entries := Enumerate(ReportLines(sreport));
    var t := Traverse(SreportLine, entries);
    assert SreportLine(entries[k]).Err?;
    var j :| 0 <= j < |entries| && SreportLine(entries[j]) == Err(t.error)
      && forall i :: 0 <= i < j ==> SreportLine(entries[i]).Ok?;
    assert j == k;
  }

  /** The seconds of a user are those of the last line listing the user. */
  lemma QueryKeepsLastLine(sreport: CommandOutput, j: nat)
    requires QueryGpuTimes(sreport).Ok?
    requires j < |ReportLines(sreport)|
    requires forall k :: j < k < |ReportLines(sreport)| ==>
      SreportLine((k, ReportLines(sreport)[k])).value.0 != SreportLine((j, ReportLines(sreport)[j])).value.0
    ensures SreportLine((j, ReportLines(sreport)[j])).Ok?
    ensures var (user, secs) := SreportLine((j, ReportLines(sreport)[j])).value;
      user in QueryGpuTimes(sreport).value && QueryGpuTimes(sreport).value[user] == secs
  {
    var entries := Enumerate(ReportLines(sreport));
    var pairs := Traverse(SreportLine, entries).value;
    assert Collections.LastListing(pairs, j);
    Collections.MapOfPairsLast(pairs, j);
  }
}
