/**
  The CPU figures of the collector (`collector_data/src/cpu.rs`): the
  processors listed in `/proc/cpuinfo`, and, per job and for the processes
  of no job, the processors (`psr` of `ps -eo pid,psr`) its processes last
  ran on.
*/
module Cpu {
  import opened Wrappers
  import opened Failures
  import Text
  import Sysinfo
  import Job
  import Node
  import Collections

  datatype CpuNode = CpuNode(id: string, coreCount: nat)

  datatype Cpu = Cpu(nodes: seq<CpuNode>)

  /** The `CpuNodeBuilder`: the fields set so far. */
  datatype Builder = Builder(id: Option<string>, coreCount: Option<nat>)

  // ---------------------------------------------------------------------
  // Static information: /proc/cpuinfo
  // ---------------------------------------------------------------------

  /** `line.splitn(2, ':')` with each part trimmed. */
  function KeyValue(line: string): (kv: seq<string>)
    ensures 1 <= |kv| <= 2
    ensures |kv| == 1 <==> ':' !in line
  {
    var parts := Text.SplitN2(line, ':');
    if |parts| == 1 then [Text.Trim(parts[0])] else [Text.Trim(parts[0]), Text.Trim(parts[1])]
  }

  /** The arms of the `match kv.as_slice()` of `get_static_info`. */
  datatype CpuInfoLine = ProcessorLine(id: string) | CoresLine(count: string) | BlankLine | OtherLine

  function Classify(line: string): CpuInfoLine {
    var kv := KeyValue(line);
    if |kv| == 2 && kv[0] == "processor" then ProcessorLine(kv[1])
    else if |kv| == 2 && kv[0] == "cpu cores" then CoresLine(kv[1])
    else if kv == [""] then BlankLine
    else OtherLine
  }

  /** A line is blank exactly when it is whitespace only (`[""]`). */
  lemma ClassifyBlank(line: string)
    ensures Classify(line) == BlankLine <==> Text.Trim(line) == "" && ':' !in line
  {
    if ':' !in line {
      assert Text.SplitN2(line, ':') == [line];
    }
  }

  /** The classification of each line, in order. */
  function ClassifyAll(lines: seq<string>): (kinds: seq<CpuInfoLine>)
    ensures |kinds| == |lines|
  {
    MapLines(Classify, lines)
  }

  /** `f` applied to each line, in order. */
  function MapLines<T>(f: string -> T, lines: seq<string>): (r: seq<T>)
    ensures |r| == |lines|
  {
    if lines == [] then [] else [f(lines[0])] + MapLines(f, lines[1..])
  }

  lemma {:induction false} MapLinesAt<T>(f: string -> T, lines: seq<string>, i: nat)
    requires i < |lines|
    ensures MapLines(f, lines)[i] == f(lines[i])
  {
    if i > 0 {
      MapLinesAt(f, lines[1..], i - 1);
    }
  }

  lemma {:induction false} MapLinesAppend<T>(f: string -> T, a: seq<string>, b: seq<string>)
    ensures MapLines(f, a + b) == MapLines(f, a) + MapLines(f, b)
  {
    if a == [] {
      assert a + b == b;
    } else {
      assert (a + b)[0] == a[0] && (a + b)[1..] == a[1..] + b;
      MapLinesAppend(f, a[1..], b);
    }
  }

  lemma MapLines3<T>(f: string -> T, a: string, b: string, c: string)
    ensures MapLines(f, [a, b, c]) == [f(a), f(b), f(c)]
  {
    assert [a, b, c][1..] == [b, c] && [b, c][1..] == [c] && [c][1..] == [];
    assert MapLines(f, [c]) == [f(c)];
    assert MapLines(f, [b, c]) == [f(b), f(c)];
  }

  /**
    The records of classified `/proc/cpuinfo` lines, read as written: a
    `processor` line sets the id, a `cpu cores` line the core count (a value
    that is not a `u32` panics), and a blank line emits a node from whatever
    the builder holds (panicking when a field was never set) without
    clearing it; other lines are ignored and a last record without a blank
    line after it is dropped.
  */
  function ReadRecords(b: Builder, nodes: seq<CpuNode>, kinds: seq<CpuInfoLine>): (r: Result<seq<CpuNode>, Failure>)
    ensures r.Err? ==> r.error.Panic?
    ensures r.Ok? ==> |r.value| == |nodes| + Blanks(kinds)
    decreases |kinds|
  {
    if kinds == [] then Ok(nodes)
    else match kinds[0]
      case ProcessorLine(id) => ReadRecords(b.(id := Some(id)), nodes, kinds[1..])
      case CoresLine(count) =>
        (match Text.ParseU32(count)
         case None => Err(Panic("called `Result::unwrap()` on an `Err` value"))
         case Some(n) => ReadRecords(b.(coreCount := Some(n as nat)), nodes, kinds[1..]))
      case BlankLine =>
        if b.id.Some? && b.coreCount.Some? then
          ReadRecords(b, nodes + [CpuNode(b.id.value, b.coreCount.value)], kinds[1..])
        else Err(Panic("Ain't working"))
      case OtherLine => ReadRecords(b, nodes, kinds[1..])
  }

  /** The number of record-ending lines. */
  function Blanks(kinds: seq<CpuInfoLine>): nat {
    if kinds == [] then 0 else (if kinds[0] == BlankLine then 1 else 0) + Blanks(kinds[1..])
  }

  /** The processors of `/proc/cpuinfo` lines: one per blank line, when none panics. */
  function ReadCpuInfo(lines: seq<string>): Result<seq<CpuNode>, Failure> {
    ReadRecords(Builder(None, None), [], ClassifyAll(lines))
  }

  /**
    `Cpu::get_static_info`, given the text of `/proc/cpuinfo`: the nodes
    `ReadCpuInfo` reads from its lines.
  */
  method GetStaticInfo(cpuinfo: string) returns (r: Result<Cpu, Failure>)
    ensures ReadCpuInfo(Text.Lines(cpuinfo)).Err? ==> r.Err?
    ensures ReadCpuInfo(Text.Lines(cpuinfo)).Ok? ==> r == Ok(Cpu(ReadCpuInfo(Text.Lines(cpuinfo)).value))
  {
    var lines := Text.Lines(cpuinfo);
    var nodes := ReadLoop(lines);
    if nodes.Err? {
      return Err(nodes.error);
    }
    return Ok(Cpu(nodes.value));
  }

  /** The `for line in buf_reader.lines()` loop of `get_static_info`. */
  method ReadLoop(lines: seq<string>) returns (r: Result<seq<CpuNode>, Failure>)
    ensures r == ReadCpuInfo(lines)
  {
    var kinds := ClassifyAll(lines);
    var builder := Builder(None, None);
    var cpuInfos: seq<CpuNode> := [];
    var k := 0;
    while k < |lines|
      invariant 0 <= k <= |lines|
      invariant ReadCpuInfo(lines) == ReadRecords(builder, cpuInfos, kinds[k..])
    {
      assert kinds[k..][0] == kinds[k] && kinds[k..][1..] == kinds[k + 1..];
      match kinds[k] {
        case ProcessorLine(id) =>
          builder := builder.(id := Some(id));
        case CoresLine(count) =>
          var n := Text.ParseU32(count);
          if n.None? {
            return Err(Panic("called `Result::unwrap()` on an `Err` value"));
          }
          builder := builder.(coreCount := Some(n.value as nat));
        case BlankLine =>
          if builder.id.None? || builder.coreCount.None? {
            return Err(Panic("Ain't working"));
          }
          cpuInfos := cpuInfos + [CpuNode(builder.id.value, builder.coreCount.value)];
        case OtherLine =>
      }
      k := k + 1;
    }
    return Ok(cpuInfos);
  }

  /** The three lines `/proc/cpuinfo` gives a processor here: id, core count, blank. */
  function Render(nodes: seq<CpuNode>): seq<string> {
    if nodes == [] then [] else Block(nodes[0]) + Render(nodes[1..])
  }

  function Block(n: CpuNode): seq<string> {
    ["processor\t: " + n.id, "cpu cores\t: " + Text.NatToString(n.coreCount), ""]
  }

  /** The classification of rendered records. */
  function RenderKinds(nodes: seq<CpuNode>): seq<CpuInfoLine> {
    if nodes == [] then []
    else [ProcessorLine(nodes[0].id), CoresLine(Text.NatToString(nodes[0].coreCount)), BlankLine] + RenderKinds(nodes[1..])
  }

  /** Ids as the kernel writes them: one non-empty word. */
  predicate Renderable(nodes: seq<CpuNode>) {
    forall i :: 0 <= i < |nodes| ==>
      nodes[i].id != [] && Text.NoWhitespace(nodes[i].id) && nodes[i].coreCount <= Text.U32_MAX
  }

  /** Reading the rendered records of some processors gives back those processors. */
  lemma CpuInfoRoundTrip(nodes: seq<CpuNode>)
    requires Renderable(nodes)
    ensures ReadCpuInfo(Text.Lines(Text.Terminated(Render(nodes)))) == Ok(nodes)
  {
    RenderLines(nodes);
    Text.LinesOfTerminated(Render(nodes));
    ReadRenderedLines(nodes);
  }

  lemma ReadRenderedLines(nodes: seq<CpuNode>)
    requires Renderable(nodes)
    ensures ReadCpuInfo(Render(nodes)) == Ok(nodes)
  {
    ClassifyRendered(nodes);
    ReadRendered(Builder(None, None), [], nodes);
    assert [] + nodes == nodes;
  }

  lemma {:induction false} RenderLines(nodes: seq<CpuNode>)
    requires Renderable(nodes)
    ensures forall i :: 0 <= i < |Render(nodes)| ==>
      '\n' !in Render(nodes)[i] && Text.StripCR(Render(nodes)[i]) == Render(nodes)[i]
  {
    if nodes != [] {
      RenderLines(nodes[1..]);
      var id := nodes[0].id;
      var count := Text.NatToString(nodes[0].coreCount);
      var head := ["processor\t: " + id, "cpu cores\t: " + count, ""];
      assert '\n' !in id && '\r' !in id by {
        assert Text.IsWhitespace('\n') && Text.IsWhitespace('\r');
      }
      assert '\n' !in count && count[|count| - 1] != '\r' by {
        assert Text.IsDigit(count[|count| - 1]);
      }
      assert forall i :: 0 <= i < |head| ==> '\n' !in head[i] && Text.StripCR(head[i]) == head[i];
      assert Block(nodes[0]) == head;
    }
  }

  lemma {:induction false} ClassifyRendered(nodes: seq<CpuNode>)
    requires Renderable(nodes)
    ensures ClassifyAll(Render(nodes)) == RenderKinds(nodes)
  {
    if nodes != [] {
      ClassifyRendered(nodes[1..]);
      ClassifyBlock(nodes[0]);
      MapLinesAppend(Classify, Block(nodes[0]), Render(nodes[1..]));
    }
  }

  lemma ClassifyBlock(n: CpuNode)
    requires n.id != [] && Text.NoWhitespace(n.id) && n.coreCount <= Text.U32_MAX
    ensures ClassifyAll(Block(n)) == [ProcessorLine(n.id), CoresLine(Text.NatToString(n.coreCount)), BlankLine]
  {
    MapLines3(Classify, "processor\t: " + n.id, "cpu cores\t: " + Text.NatToString(n.coreCount), "");
    ClassifyProcessor(n.id);
    ClassifyCores(n.coreCount);
    ClassifyEmpty();
  }

  lemma ClassifyProcessor(id: string)
    requires id != [] && Text.NoWhitespace(id)
    ensures Classify("processor\t: " + id) == ProcessorLine(id)
  {
    KeyValueOfProcessor(id);
  }

  lemma ClassifyCores(count: nat)
    ensures Classify("cpu cores\t: " + Text.NatToString(count)) == CoresLine(Text.NatToString(count))
  {
    var value := Text.NatToString(count);
    assert Text.NoWhitespace(value) by {
      forall i | 0 <= i < |value| ensures !Text.IsWhitespace(value[i]) {
        assert Text.IsDigit(value[i]);
      }
    }
    KeyValueOfCores(value);
  }

  lemma ClassifyEmpty()
    ensures Classify("") == BlankLine
  {
    assert Text.SplitN2("", ':') == [""];
    assert Text.Trim("") == "";
    assert KeyValue("") == [""];
  }

  lemma {:induction false} ReadRendered(b: Builder, acc: seq<CpuNode>, nodes: seq<CpuNode>)
    requires Renderable(nodes)
    ensures ReadRecords(b, acc, RenderKinds(nodes)) == Ok(acc + nodes)
    decreases |nodes|
  {
    if nodes == [] {
      assert acc + nodes == acc;
    } else {
      var n := nodes[0];
      var b2 := Builder(Some(n.id), Some(n.coreCount));
      ReadBlock(b, acc, n, RenderKinds(nodes[1..]));
      ReadRendered(b2, acc + [n], nodes[1..]);
      assert acc + [n] + nodes[1..] == acc + nodes;
    }
  }

  /** One rendered record is read into one node, and the builder keeps its fields. */
  lemma ReadBlock(b: Builder, acc: seq<CpuNode>, n: CpuNode, rest: seq<CpuInfoLine>)
    requires n.coreCount <= Text.U32_MAX
    ensures ReadRecords(b, acc, [ProcessorLine(n.id), CoresLine(Text.NatToString(n.coreCount)), BlankLine] + rest)
         == ReadRecords(Builder(Some(n.id), Some(n.coreCount)), acc + [n], rest)
  {
    var count := Text.NatToString(n.coreCount);
    var kinds := [ProcessorLine(n.id), CoresLine(count), BlankLine] + rest;
    var b1 := b.(id := Some(n.id));
    var b2 := Builder(Some(n.id), Some(n.coreCount));
    assert kinds[0] == ProcessorLine(n.id) && kinds[1..][0] == CoresLine(count);
    assert kinds[1..][1..][0] == BlankLine && kinds[1..][1..][1..] == rest;
    Text.ParseIntOfNatToString(n.coreCount, false, 0, Text.U32_MAX);
    assert ReadRecords(b, acc, kinds) == ReadRecords(b1, acc, kinds[1..]);
    assert ReadRecords(b1, acc, kinds[1..]) == ReadRecords(b2, acc, kinds[1..][1..]);
  }

  /** A `processor` line splits into the key and the id. */
  lemma KeyValueOfProcessor(id: string)
    requires id != [] && Text.NoWhitespace(id)
    ensures KeyValue("processor\t: " + id) == ["processor", id]
  {
    assert "processor\t: " + id == "processor\t" + ":" + (" " + id);
    SplitN2Field("processor\t", " " + id);
    TrimField("processor", "processor\t");
    TrimAroundWord(id);
  }

  /** A `cpu cores` line splits into the key and the count. */
  lemma KeyValueOfCores(value: string)
    requires value != [] && Text.NoWhitespace(value)
    ensures KeyValue("cpu cores\t: " + value) == ["cpu cores", value]
  {
    assert "cpu cores\t: " + value == "cpu cores\t" + ":" + (" " + value);
    SplitN2Field("cpu cores\t", " " + value);
    TrimField("cpu cores", "cpu cores\t");
    TrimAroundWord(value);
  }

  lemma TrimField(key: string, field: string)
    requires field == key + "\t" && key != []
    requires !Text.IsWhitespace(key[0]) && !Text.IsWhitespace(key[|key| - 1])
    ensures Text.Trim(field) == key
  {
    assert field[0] == key[0];
    assert Text.TrimStart(field) == field;
    assert field[..|field| - 1] == key;
    assert Text.TrimEnd(field) == Text.TrimEnd(key);
    assert Text.TrimEnd(key) == key;
  }

  /** A line whose first `:` follows `field` splits there. */
  lemma SplitN2Field(field: string, rest: string)
    requires ':' !in field
    ensures Text.SplitN2(field + ":" + rest, ':') == [field, rest]
  {
    var line := field + ":" + rest;
    assert line == field + [':'] + rest;
    assert line[|field|] == ':';
    var parts := Text.SplitN2(line, ':');
    FirstSeparator(line, field, rest, parts[0], parts[1], ':');
  }

  /** The text before the first separator is determined by the text. */
  lemma FirstSeparator(s: string, a: string, b: string, a': string, b': string, sep: char)
    requires s == a + [sep] + b && s == a' + [sep] + b'
    requires sep !in a && sep !in a'
    ensures a == a' && b == b'
  {
    assert forall j :: 0 <= j < |a| ==> s[j] == a[j];
    assert forall j :: 0 <= j < |a'| ==> s[j] == a'[j];
    assert s[|a|] == sep && s[|a'|] == sep;
    assert |a| == |a'|;
    assert a == s[..|a|] == a';
    assert b == s[|a| + 1..] == b';
  }

  lemma TrimAroundWord(w: string)
    requires w != [] && Text.NoWhitespace(w)
    ensures Text.Trim(" " + w) == w
  {
    assert (" " + w)[1..] == w;
    assert Text.TrimStart(" " + w) == Text.TrimStart(w) == w;
  }

  /**
    The builder is not cleared between records: a record without its own
    `processor` and `cpu cores` lines repeats the previous processor.
  */
  lemma BuilderCarriesOver(n: CpuNode)
    requires n.id != [] && Text.NoWhitespace(n.id) && n.coreCount <= Text.U32_MAX
    ensures ReadCpuInfo(Block(n) + [""]) == Ok([n, n])
  {
    ClassifyCarriedLines(n);
    ReadCarried(n);
  }

  lemma ClassifyCarriedLines(n: CpuNode)
    requires n.id != [] && Text.NoWhitespace(n.id) && n.coreCount <= Text.U32_MAX
    ensures ClassifyAll(Block(n) + [""]) == RenderKinds([n]) + [BlankLine]
  {
    ClassifyBlock(n);
    ClassifyEmpty();
    assert MapLines(Classify, [""]) == [BlankLine];
    MapLinesAppend(Classify, Block(n), [""]);
  }

  lemma ReadCarried(n: CpuNode)
    requires n.coreCount <= Text.U32_MAX
    ensures ReadRecords(Builder(None, None), [], RenderKinds([n]) + [BlankLine]) == Ok([n, n])
  {
    var count := Text.NatToString(n.coreCount);
    assert RenderKinds([n]) == [ProcessorLine(n.id), CoresLine(count), BlankLine] by {
      assert [n][1..] == [];
    }
    var kinds := [ProcessorLine(n.id), CoresLine(count), BlankLine, BlankLine];
    assert RenderKinds([n]) + [BlankLine] == kinds;
    var b1 := Builder(Some(n.id), None);
    var b2 := Builder(Some(n.id), Some(n.coreCount));
    Text.ParseIntOfNatToString(n.coreCount, false, 0, Text.U32_MAX);
    assert kinds[1..] == [CoresLine(count), BlankLine, BlankLine];
    assert kinds[1..][1..] == [BlankLine, BlankLine];
    assert kinds[1..][1..][1..] == [BlankLine] && [BlankLine][1..] == [];
    assert CpuNode(n.id, n.coreCount) == n && [n] + [n] == [n, n] && [] + [n] == [n];
    assert ReadRecords(b2, [n, n], []) == Ok([n, n]);
    assert ReadRecords(b2, [n], [BlankLine]) == Ok([n, n]);
    assert ReadRecords(b2, [], [BlankLine, BlankLine]) == Ok([n, n]);
    assert ReadRecords(b1, [], kinds[1..]) == Ok([n, n]);
  }

  /** A blank line before any `processor` line panics. */
  lemma BlankBeforeProcessorPanics(lines: seq<string>)
    requires lines != [] && Text.Trim(lines[0]) == "" && ':' !in lines[0]
    ensures ReadCpuInfo(lines).Err?
  {
    ClassifyBlank(lines[0]);
    MapLinesAt(Classify, lines, 0);
  }

  // ---------------------------------------------------------------------
  // Usage: ps -eo pid,psr
  // ---------------------------------------------------------------------

  /** The pid and processor of one `ps` line; a missing or non-`u32` column panics. */
  function PidPsrOfLine(line: string): (r: Result<(nat, nat), Failure>)
    ensures r.Err? ==> r.error.Panic?
  {
    var e := Text.SplitWhitespace(line);
    if |e| < 2 then Err(Panic("index out of bounds"))
    else match (Text.ParseU32(e[0]), Text.ParseU32(e[1]))
      case (Some(pid), Some(psr)) => Ok((pid as nat, psr as nat))
      case _ => Err(Panic("called `Result::unwrap()` on an `Err` value"))
  }

  /** A `ps` line listing a pid and a processor gives back both. */
  lemma PidPsrOfRendered(pid: nat, psr: nat, more: seq<string>)
    requires pid <= Text.U32_MAX && psr <= Text.U32_MAX
    requires Job.Words(more)
    ensures PidPsrOfLine(Text.Unwords([Text.NatToString(pid), Text.NatToString(psr)] + more)) == Ok((pid, psr))
  {
    var tokens := [Text.NatToString(pid), Text.NatToString(psr)] + more;
    Text.NatToStringIsWord(pid);
    Text.NatToStringIsWord(psr);
    Text.SplitWhitespaceUnwords(tokens);
    Text.ParseIntOfNatToString(pid, false, 0, Text.U32_MAX);
    Text.ParseIntOfNatToString(psr, false, 0, Text.U32_MAX);
  }

  /** `get_pid_psr`, given what `ps -eo pid,psr` printed (its first line is a header). */
  function GetPidPsr(psOutput: string): (r: Result<map<nat, nat>, Failure>)
    ensures r.Err? ==> r.error.Panic?
  {
    match Traverse(PidPsrOfLine, Job.SkipHeader(Text.Lines(psOutput)))
    case Err(f) => Err(f)
    case Ok(pairs) => Ok(Collections.MapOfPairs(pairs))
  }

  /** The usage of one processor (its `f32` load is not modelled). */
  datatype CpuUsage = CpuUsage(nodeId: string, jobId: Option<string>)

  /**
    The processors the listed running processes last ran on, each once, in
    the order first met; pids not running or not in `psr` are skipped.
  */
  function CpuIdsOf(sys: Sysinfo.System, psr: map<nat, nat>, pids: seq<nat>): (ids: seq<nat>)
    ensures forall i, j :: 0 <= i < j < |ids| ==> ids[i] != ids[j]
    ensures forall c :: c in ids <==> exists i :: 0 <= i < |pids| && Counted(sys, psr, pids[i]) && psr[pids[i]] == c
  {
    if pids == [] then []
    else
      var init := pids[..|pids| - 1];
      var ids := CpuIdsOf(sys, psr, init);
      var pid := pids[|pids| - 1];
      assert forall i :: 0 <= i < |init| ==> init[i] == pids[i];
      if Counted(sys, psr, pid) && psr[pid] !in ids then ids + [psr[pid]] else ids
  }

  /** The pid names a running process whose processor `ps` reported. */
  predicate Counted(sys: Sysinfo.System, psr: map<nat, nat>, pid: nat) {
    Sysinfo.FindProcess(sys, pid).Some? && pid in psr
  }

  /** One usage entry per processor id, tagged with `jobId`. */
  function UsagesOf(ids: seq<nat>, jobId: Option<string>): (usages: seq<CpuUsage>)
    ensures |usages| == |ids|
    ensures forall i :: 0 <= i < |ids| ==> usages[i] == CpuUsage(Text.NatToString(ids[i]), jobId)
  {
    seq(|ids|, i requires 0 <= i < |ids| => CpuUsage(Text.NatToString(ids[i]), jobId))
  }

  /** Distinct processors give distinct node ids. */
  lemma UsageIdsDistinct(ids: seq<nat>, jobId: Option<string>)
    requires forall i, j :: 0 <= i < j < |ids| ==> ids[i] != ids[j]
    ensures forall i, j :: 0 <= i < j < |ids| ==> UsagesOf(ids, jobId)[i].nodeId != UsagesOf(ids, jobId)[j].nodeId
  {
    forall i, j | 0 <= i < j < |ids|
      ensures UsagesOf(ids, jobId)[i].nodeId != UsagesOf(ids, jobId)[j].nodeId
    {
      if Text.NatToString(ids[i]) == Text.NatToString(ids[j]) {
        Text.NatToStringInjective(ids[i], ids[j]);
      }
    }
  }

  /**
    The `for pid in ...` loop shared by both usage functions: a processor's
    entry is created the first time one of the pids ran on it.
  */
  method CollectUsages(sys: Sysinfo.System, psr: map<nat, nat>, pids: seq<nat>, jobId: Option<string>)
    returns (usages: seq<CpuUsage>)
    ensures usages == UsagesOf(CpuIdsOf(sys, psr, pids), jobId)
  {
    var seen: seq<nat> := [];
    usages := [];
    var k := 0;
    while k < |pids|
      invariant 0 <= k <= |pids|
      invariant seen == CpuIdsOf(sys, psr, pids[..k])
      invariant usages == UsagesOf(seen, jobId)
    {
      var pid := pids[k];
      assert pids[..k + 1][..k] == pids[..k];
      if Sysinfo.FindProcess(sys, pid).Some? {
        if pid in psr {
          var cpuId := psr[pid];
          if cpuId !in seen {
            seen := seen + [cpuId];
            usages := usages + [CpuUsage(Text.NatToString(cpuId), jobId)];
          }
        }
      }
      k := k + 1;
    }
    assert pids[..k] == pids;
  }

  /**
    `CpuUsage::get_usage_per_job`: one entry per processor the job's running
    processes last ran on, tagged with the job's id.
  */
  method GetUsagePerJob(sys: Sysinfo.System, job: Job.Job, psOutput: string) returns (r: Result<seq<CpuUsage>, Failure>)
    ensures GetPidPsr(psOutput).Err? ==> r.Err?
    ensures GetPidPsr(psOutput).Ok? ==>
      r == Ok(UsagesOf(CpuIdsOf(sys, GetPidPsr(psOutput).value, job.processes), Some(job.id)))
  {
    var psr := GetPidPsr(psOutput);
    if psr.Err? {
      return Err(psr.error);
    }
    var usages := CollectUsages(sys, psr.value, job.processes, Some(job.id));
    return Ok(usages);
  }

  /**
    `CpuUsage::get_non_job_usage`: one entry per processor that a process of
    the table listed by no job last ran on, with no job id.
  */
  method GetNonJobUsage(sys: Sysinfo.System, jobs: seq<Job.Job>, psOutput: string) returns (r: Result<seq<CpuUsage>, Failure>)
    ensures GetPidPsr(psOutput).Err? ==> r.Err?
    ensures GetPidPsr(psOutput).Ok? ==>
      r == Ok(UsagesOf(CpuIdsOf(sys, GetPidPsr(psOutput).value,
                                Node.PidsWithoutJob(sys.processes, Node.JobPids(jobs))), None))
  {
    var withoutJob := Node.PidsWithoutJob(sys.processes, Node.JobPids(jobs));
    var psr := GetPidPsr(psOutput);
    if psr.Err? {
      return Err(psr.error);
    }
    var usages := CollectUsages(sys, psr.value, withoutJob, None);
    return Ok(usages);
  }
}
