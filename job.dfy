/**
  The running SLURM jobs of a node (`collector_data/src/job.rs`): one job per
  line of `squeue` output after its header, each with the process ids that
  `scontrol listpids <job id>` lists for it.
*/
module Job {
  import opened Wrappers
  import opened Failures
  import Text

  datatype Job = Job(id: string, processes: seq<nat>, name: string, user: string, startTime: string, endTime: string)

  /** The five leading columns of an `squeue` line, in the tuple the collector builds. */
  datatype RawJob = RawJob(id: string, name: string, user: string, startTime: string, endTime: string)

  const EPOCH_TEXT: string := "1970-01-01 00:00:00"

  /** A SLURM time column: `N/A` becomes the epoch, otherwise each `T` becomes a space. */
  function SlurmTime(field: string): string {
    if field == "N/A" then EPOCH_TEXT else Text.Replace(field, 'T', " ")
  }

  /** SLURM's `yyyy-mm-ddThh:mm:ss` becomes `yyyy-mm-dd hh:mm:ss`. */
  lemma SlurmTimeOfTimestamp(date: string, time: string)
    requires 'T' !in date && 'T' !in time
    ensures SlurmTime(date + "T" + time) == date + " " + time
  {
    var s := date + "T" + time;
    assert s[|date|] == 'T';
    Text.ReplaceWithChar(s, 'T', ' ');
    assert [' '] == " ";
    var r := Text.Replace(s, 'T', " ");
    forall i | 0 <= i < |s| ensures r[i] == (date + " " + time)[i] {
      if i < |date| {
        assert s[i] == date[i];
      } else if i > |date| {
        assert s[i] == time[i - |date| - 1];
      }
    }
    assert r == date + " " + time;
  }

  /** A valid `split_whitespace` token list. */
  predicate Words(tokens: seq<string>) {
    forall i :: 0 <= i < |tokens| ==> tokens[i] != [] && Text.NoWhitespace(tokens[i])
  }

  /**
    One `squeue` line, as written: the time conversion is applied to the
    third and fourth columns (user and start time) and the fifth column (end
    time) is kept verbatim. A line with fewer than five columns panics.
  */
  function ParseSqueueLine(line: string): (r: Result<RawJob, Failure>)
    ensures r.Err? ==> r.error.Panic?
  {
    var e := Text.SplitWhitespace(line);
    if |e| < 5 then Err(Panic("index out of bounds"))
    else Ok(RawJob(e[0], e[1], SlurmTime(e[2]), SlurmTime(e[3]), e[4]))
  }

  /** What `ParseSqueueLine` makes of the columns of a line. */
  lemma SqueueLineAsWritten(id: string, name: string, user: string, start: string, end: string, more: seq<string>)
    requires Words([id, name, user, start, end] + more)
    ensures ParseSqueueLine(Text.Unwords([id, name, user, start, end] + more))
      == Ok(RawJob(id, name, SlurmTime(user), SlurmTime(start), end))
  {
    var tokens := [id, name, user, start, end] + more;
    Text.SplitWhitespaceUnwords(tokens);
  }

  /** A line with fewer than five columns panics. */
  lemma SqueueShortLinePanics(tokens: seq<string>)
    requires Words(tokens) && |tokens| < 5
    ensures ParseSqueueLine(Text.Unwords(tokens)).Err?
  {
    Text.SplitWhitespaceUnwords(tokens);
  }

  /**
    A user named `Tom` is stored as ` om`, and the end time is kept verbatim
    (with its `T`): the time conversion is applied one column too early.
  */
  lemma SqueueColumnsShifted(id: string, name: string, start: string, end: string)
    requires Words([id, name, "Tom", start, end])
    ensures var r := ParseSqueueLine(Text.Unwords([id, name, "Tom", start, end]));
      r.Ok? && r.value.user == " om" && r.value.endTime == end
  {
    assert [id, name, "Tom", start, end] == [id, name, "Tom", start, end] + [];
    SqueueLineAsWritten(id, name, "Tom", start, end, []);
    assert SlurmTime("Tom") == " om";
  }

  /**
    The evidently intended reading of an `squeue` line: the user column is
    kept verbatim and the conversion is applied to the start and end times.
  */
  function ParseSqueueLineIntended(line: string): (r: Result<RawJob, Failure>)
    ensures r.Err? ==> r.error.Panic?
  {
    var e := Text.SplitWhitespace(line);
    if |e| < 5 then Err(Panic("index out of bounds"))
    else Ok(RawJob(e[0], e[1], e[2], SlurmTime(e[3]), SlurmTime(e[4])))
  }

  /** The intended reading keeps the user and converts both SLURM timestamps. */
  lemma SqueueLineIntended(id: string, name: string, user: string, startDate: string, startTime: string,
                           endDate: string, endTime: string, more: seq<string>)
    requires 'T' !in startDate && 'T' !in startTime && 'T' !in endDate && 'T' !in endTime
    requires Words([id, name, user, startDate + "T" + startTime, endDate + "T" + endTime] + more)
    ensures ParseSqueueLineIntended(Text.Unwords([id, name, user, startDate + "T" + startTime, endDate + "T" + endTime] + more))
      == Ok(RawJob(id, name, user, startDate + " " + startTime, endDate + " " + endTime))
  {
    var tokens := [id, name, user, startDate + "T" + startTime, endDate + "T" + endTime] + more;
    Text.SplitWhitespaceUnwords(tokens);
    SlurmTimeOfTimestamp(startDate, startTime);
    SlurmTimeOfTimestamp(endDate, endTime);
  }

  /** `lines().skip(1)`. */
  function SkipHeader(lines: seq<string>): seq<string> {
    if lines == [] then [] else lines[1..]
  }

  /** Every line after the header, in order; the first line that panics ends the parse. */
  function ParseSqueue(lines: seq<string>): (r: Result<seq<RawJob>, Failure>)
    ensures r.Err? ==> r.error.Panic?
  {
    Traverse(ParseSqueueLine, lines)
  }

  /** The jobs of the lines `squeue` printed after its header. */
  function SqueueJobs(squeueOutput: string): Result<seq<RawJob>, Failure> {
    ParseSqueue(SkipHeader(Text.Lines(squeueOutput)))
  }

  /** The process ids of `scontrol listpids` lines: the first column of each, as a `u32`. */
  function ParsePids(lines: seq<string>): (r: Result<seq<nat>, Failure>)
    ensures r.Err? ==> r.error.Panic?
    ensures r.Ok? ==> forall i :: 0 <= i < |r.value| ==> r.value[i] <= Text.U32_MAX
  {
    Traverse(PidOfLine, lines)
  }

  /** `elements[0].parse::<u32>().unwrap()` on the columns of one line. */
  function PidOfLine(line: string): (r: Result<nat, Failure>)
    ensures r.Err? ==> r.error.Panic?
    ensures r.Ok? ==> r.value <= Text.U32_MAX
  {
    var e := Text.SplitWhitespace(line);
    if e == [] then Err(Panic("index out of bounds"))
    else match Text.ParseU32(e[0])
      case None => Err(Panic("called `Result::unwrap()` on an `Err` value"))
      case Some(pid) => Ok(pid as nat)
  }

  /** `get_process_per_job_id`, given what `scontrol listpids` printed. */
  function ProcessesOfJob(listpidsOutput: string): (r: Result<seq<nat>, Failure>)
    ensures r.Err? ==> r.error.Panic?
  {
    ParsePids(SkipHeader(Text.Lines(listpidsOutput)))
  }

  /** Lines whose first column is a rendered pid give back those pids, in order. */
  lemma ParsePidsOfRendered(lines: seq<string>, pids: seq<nat>)
    requires |lines| == |pids|
    requires forall i :: 0 <= i < |pids| ==> pids[i] <= Text.U32_MAX
    requires forall i :: 0 <= i < |lines| ==>
      Text.SplitWhitespace(lines[i]) != [] && Text.SplitWhitespace(lines[i])[0] == Text.NatToString(pids[i])
    ensures ParsePids(lines) == Ok(pids)
  {
    forall i | 0 <= i < |lines|
      ensures PidOfLine(lines[i]) == Ok(pids[i])
    {
      PidOfRenderedLine(lines[i], pids[i]);
    }
    var r := ParsePids(lines);
    assert r.Ok?;
    assert r.value == pids;
  }

  /** A line whose first column is a rendered pid gives back that pid. */
  lemma PidOfRenderedLine(line: string, pid: nat)
    requires pid <= Text.U32_MAX
    requires Text.SplitWhitespace(line) != [] && Text.SplitWhitespace(line)[0] == Text.NatToString(pid)
    ensures PidOfLine(line) == Ok(pid)
  {
    Text.ParseIntOfNatToString(pid, false, 0, Text.U32_MAX);
  }

  function BuildJob(raw: RawJob, processes: seq<nat>): Job {
    Job(raw.id, processes, raw.name, raw.user, raw.startTime, raw.endTime)
  }

  /**
    `Job::get_jobs`, given what `squeue` printed and what `scontrol listpids`
    prints for each job id: one job per `squeue` line after the header, in
    order, each with its listed processes; a panic anywhere ends it.
  */
  method GetJobs(squeueOutput: string, listpids: string -> string) returns (r: Result<seq<Job>, Failure>)
    ensures r.Err? ==> r.error.Panic?
    ensures SqueueJobs(squeueOutput).Err? ==> r.Err?
    ensures SqueueJobs(squeueOutput).Ok? ==>
      var raws := SqueueJobs(squeueOutput).value;
      && (r.Ok? <==> forall i :: 0 <= i < |raws| ==> ProcessesOfJob(listpids(raws[i].id)).Ok?)
      && (r.Ok? ==> (|r.value| == |raws| && forall i :: 0 <= i < |raws| ==>
            r.value[i] == BuildJob(raws[i], ProcessesOfJob(listpids(raws[i].id)).value)))
  {
    var parsed := SqueueJobs(squeueOutput);
    if parsed.Err? {
      return Err(parsed.error);
    }
    r := AttachProcesses(parsed.value, id => ProcessesOfJob(listpids(id)));
  }

  /** The `for job in job_raws` loop of `get_jobs`, given each job's process lookup. */
  method AttachProcesses(raws: seq<RawJob>, processesOf: string -> Result<seq<nat>, Failure>)
    returns (r: Result<seq<Job>, Failure>)
    ensures r.Err? ==> exists i :: 0 <= i < |raws| && processesOf(raws[i].id) == Err(r.error)
    ensures r.Ok? <==> forall i :: 0 <= i < |raws| ==> processesOf(raws[i].id).Ok?
    ensures r.Ok? ==> (|r.value| == |raws| && forall i :: 0 <= i < |raws| ==>
      r.value[i] == BuildJob(raws[i], processesOf(raws[i].id).value))
  {
    var jobs: seq<Job> := [];
    var k := 0;
    while k < |raws|
      invariant 0 <= k <= |raws| && |jobs| == k
      invariant forall i :: 0 <= i < k ==> processesOf(raws[i].id).Ok?
      invariant forall i :: 0 <= i < k ==> jobs[i] == BuildJob(raws[i], processesOf(raws[i].id).value)
    {
      var processes := processesOf(raws[k].id);
      if processes.Err? {
        return Err(processes.error);
      }
      jobs := jobs + [BuildJob(raws[k], processes.value)];
      k := k + 1;
    }
    return Ok(jobs);
  }
}
