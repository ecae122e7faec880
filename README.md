# slurm-monitor, modelled in Dafny

slurm-monitor watches a SLURM cluster. Its parts are:

- **collector**: runs on every node and samples each job's usage. It reads nodes, CPUs, GPUs and jobs, and uses both NVML and the `nvidia-smi`, `ps`, `squeue`, `scontrol` and `sreport` tools.
- **backend**: receives the collectors' packets over TCP. It appends each packet to that day's save file and keeps track of collectors that have gone quiet.
- **api**: loads the save files and answers queries. A query can filter measurements by a time window and a limit, and can index a symmetric matrix.
- **frontend**: parses `sacct`'s pipe-separated output and human-written file sizes.

The model covers the core of each of these parts:

- **Pure logic** becomes functions over datatypes:
  - the parsers: datetimes, durations, file sizes, `sacct` tables, `/proc/cpuinfo`, and the output of `nvidia-smi`, `ps`, `squeue`, `scontrol` and `sreport`;
  - the aggregations per job and per node;
  - the filter over measurements;
  - the matrix index.
- **State the source changes in place** becomes classes with `modifies` clauses:
  - the backend's save worker, with its file system and queue;
  - the backend's map of client metadata;
  - a client's last-received time;
  - the API's in-memory data store.
- **Loops** become methods, proved against the functions above:
  - the save worker's search for a free file name;
  - the usage tables built per process;
  - the reading of `/proc/cpuinfo`.

Each module follows one source file:

| module | file | source |
|---|---|---|
| `Wrappers`, `Failures` | `wrappers.dfy` | `Option`, `Result`, and a `Panic`/`Error` failure that stands for `panic!`/`unwrap` and `Err` |
| `Text` | `text.dfy` | `str::lines`, `split`, `splitn`, `split_whitespace`, `trim`, `replace`, and integer parsing |
| `Collections` | `collections.dfy` | collecting pairs into a `HashMap` |
| `Chrono` | `chrono.dfy` | the civil calendar behind `NaiveDate` and `DateTime<Utc>` |
| `Durations` | `duration.dfy` | `collector_data/src/misc/parsing.rs` |
| `Clients` | `client.dfy` | `backend/src/client.rs` |
| `Backend` | `backend.dfy` | `backend/src/main.rs` |
| `Api` | `api.dfy` | `api/src/main.rs` |
| `FrontendParse` | `frontend_parse.dfy` | `frontend/src/parse.rs` |
| `Sysinfo` | `sysinfo.dfy` | the `sysinfo` process table |
| `Node` | `node.dfy` | `collector_data/src/node.rs` |
| `Cpu` | `cpu.dfy` | `collector_data/src/cpu.rs` |
| `Gpu` | `gpu.dfy` | `collector_data/src/gpu.rs` |
| `GpuDep` | `gpu_dep.dfy` | `collector_data/src/gpu_dep.rs` |
| `GpuTable` | `gpu_table.dfy` | the tables shared by both GPU back ends |
| `Job` | `job.dfy` | `collector_data/src/job.rs` |
| `Monitoring` | `monitoring.dfy` | `collector_data/src/monitoring_info.rs` |

Anything that comes from outside the program becomes a parameter:

- external commands: their output text and success flag;
- `/proc/cpuinfo`: its contents;
- NVML: a sequence of devices;
- `sysinfo`: a process table;
- the clock: a `now` value;
- the file system: a map from file names to entries.

## Model

| member | source | states |
|---|---|---|
| Failures.Traverse | collector_data/src/gpu_dep.rs:214 | collecting results stops at the first failure: the result is Ok exactly when every item succeeds, holding the values in order, and otherwise it is the failure of the first failing index |
| Collections.MapOfPairsKeys | collector_data/src/gpu_dep.rs:141-154 | the keys of a collected map are exactly the keys listed |
| Collections.MapOfPairsLast | collector_data/src/gpu_dep.rs:141-154 | a key maps to the value of its last listing |
| Text.JoinSplit | frontend/src/parse.rs:18 | joining the pieces of a split with the separator gives back the input |
| Text.SplitPiecesFree | frontend/src/parse.rs:18 | no piece of a split contains the separator |
| Text.SplitJoin | frontend/src/parse.rs:23 | splitting pieces joined by a separator they lack gives back the pieces |
| Text.SplitN2 | collector_data/src/cpu.rs:37 | `splitn(2, sep)` gives the text before the first separator and everything after it, or the whole text when there is none |
| Text.LinesShape | frontend/src/parse.rs:14 | no line contains a line feed; text without one is a single line, or no line when empty |
| Text.LinesOfTerminated | frontend/src/parse.rs:14 | the lines of newline-terminated free lines are those lines |
| Text.TrimSpec | frontend/src/parse.rs:93 | trim returns the slice between the first and the last non-whitespace character, and neither end of the result is whitespace |
| Text.TrimIdempotent | frontend/src/parse.rs:93 | trimming twice is trimming once |
| Text.SplitWhitespace | collector_data/src/cpu.rs:154 | the words are non-empty and free of whitespace |
| Text.SplitWhitespaceUnwords | collector_data/src/cpu.rs:154 | splitting words joined by single spaces gives back the words |
| Text.ParseInt | frontend/src/parse.rs:106 | a parsed integer lies within the target type's bounds and the text starts with a digit or an allowed sign |
| Text.ParseIntOfNatToString | frontend/src/parse.rs:106 | parsing the decimal rendering of a number gives back the number |
| Text.ReplaceRemoves | collector_data/src/gpu_dep.rs:146-149 | after deleting a character it no longer occurs, and text without it is unchanged |
| Text.ReplaceWithChar | collector_data/src/job.rs:36 | replacing one character by another changes exactly those positions |
| Chrono.CivilFromDays | backend/src/main.rs:199 | the calendar date of a day number, with month in 1..12 and day in 1..31 |
| Chrono.CivilFromDaysValid | backend/src/main.rs:199 | the calendar date of any day number is a valid date |
| Chrono.DaysFromCivilOfCivilFromDays | backend/src/main.rs:199 | converting a day number to a date and back gives the same day number |
| Chrono.UtcDateContains | backend/src/main.rs:199 | the UTC date of an instant is the day that contains it |
| Chrono.UtcDateOfSameDay | backend/src/main.rs:199 | two instants within the same day have the same date in the save file name |
| Chrono.FormatYear | backend/src/main.rs:199 | `%Y` renders a year as exactly four digits when it lies in 0..9999 |
| Chrono.InstantShift | api/src/main.rs:92-94 | moving an instant by whole seconds moves its day count and second of day consistently |
| Durations.SplitSuffix | collector_data/src/misc/parsing.rs:21-30 | `ms` is recognised before `s`; there is no unit exactly when the text does not end in `s`, `m` or `h` |
| Durations.ParseDuration | collector_data/src/misc/parsing.rs:19-35 | a parsed duration is within the signed 64-bit range; every failure is an error, never a panic |
| Durations.RoundTrip | collector_data/src/misc/parsing.rs:19-35 | a number followed by a unit parses to that number of units whenever it fits |
| Durations.UnknownSuffixFails | collector_data/src/misc/parsing.rs:26-29 | text with no known unit is rejected |
| Durations.BadNumberFails | collector_data/src/misc/parsing.rs:31-34 | a unit after something that is not an integer is rejected |
| Durations.OverflowFails | collector_data/src/misc/parsing.rs:31-34 | a count of seconds whose milliseconds exceed the signed 64-bit range, the bound of chrono's `TimeDelta`, is rejected |
| Durations.SecondsExample | collector_data/src/misc/parsing.rs:55-63 | `35s` is 35 seconds |
| Durations.MinutesExample | collector_data/src/misc/parsing.rs:55-63 | `27m` is 27 minutes |
| Durations.HoursExample | collector_data/src/misc/parsing.rs:55-63 | `3h` is three hours |
| Durations.MillisecondsExample | collector_data/src/misc/parsing.rs:55-63 | `500ms` is 500 milliseconds |
| Durations.SuffixExamples | collector_data/src/misc/parsing.rs:55-63 | `500`, `400k` and `400jkl` are rejected |
| Clients.ClientMetadata.constructor | backend/src/client.rs:23-29 | a new client was last heard from now and has the 30-second default interval and timeout |
| Clients.ClientMetadata.UpdateLastRecv | backend/src/client.rs:31-33 | only the last-received time changes, to now |
| Clients.ClientMetadata.HasTimedOutSince | backend/src/client.rs:35-37 | panics exactly when interval plus timeout leaves the range of chrono's `TimeDelta`; otherwise true exactly when more than interval plus timeout has passed since the given time (or now, when none is given) |
| Clients.ClientMetadata.HasTimedOut | backend/src/client.rs:39-41 | whether the client has been silent for longer than interval plus timeout |
| Clients.BoundaryNotTimedOut | backend/src/client.rs:36 | a client silent for exactly interval plus timeout has not timed out |
| Clients.TimedOutMonotone | backend/src/client.rs:35-37 | once timed out, a client stays timed out as time passes |
| Clients.FreshClientNotTimedOut | backend/src/client.rs:23-37 | a default client has not timed out until interval plus timeout after it was last heard from |
| Clients.DefaultExamples | backend/src/client.rs:60-81 | with the 30-second defaults, a client silent for 65 seconds has timed out and one silent for 20 or 40 seconds has not |
| Clients.DefaultClientExample | backend/src/client.rs:70-79 | a freshly created default client has not timed out |
| Backend.SiblingName | backend/src/main.rs:208-215 | the k-th name tried is `<date>.json.<k>.json.br` |
| Backend.ProbeInjective | backend/src/main.rs:204-215 | different attempts try different names |
| Backend.ProbesBound | backend/src/main.rs:204-245 | if the first n names tried are all taken, the directory holds at least n files, so the search ends |
| Backend.RecoverIsFirstDecodable | backend/src/main.rs:217-251 | the recovered list comes from the first name tried that holds a decodable regular file, skipping the others |
| Backend.MissingCanonicalRecoversNothing | backend/src/main.rs:203-255 | without a save file for the day, the worker starts from an empty list |
| Backend.RecoverLoop | backend/src/main.rs:203-255 | the loop over candidate names finds what the specification of recovery says |
| Backend.RecoverDecoded | backend/src/main.rs:230-234 | a decodable regular save file for the day is the list recovered |
| Backend.SaveAppends | backend/src/main.rs:256-266 | the day's file afterwards holds the recovered list with the packet appended |
| Backend.SavesAccumulate | backend/src/main.rs:174-266 | two saves on the same day leave both packets in the file, in order |
| Backend.SaveTouchesOneFile | backend/src/main.rs:199-266 | a save changes only the file of the packet's day |
| Backend.SaveWorker.constructor | backend/src/main.rs:167-172 | a new worker has the given files and queue, is connected and not stopped |
| Backend.SaveWorker.Step | backend/src/main.rs:174-274 | one loop iteration. On abort it stops with Ok and changes nothing. On an empty queue nothing changes, and a disconnected channel stops with an error. Otherwise it drops the first packet from the queue and saves it to its day's file. It stops with an error when that name is not a regular file |
| Backend.Backend.constructor | backend/src/main.rs:43-49 | the backend starts with no clients and the given save worker |
| Backend.Backend.HandleConnection | backend/src/main.rs:138-160 | a decodable packet is queued and its sender marked as heard from now; an undecodable one is an error and changes nothing |
| Backend.Backend.UpdateLastRecv | backend/src/main.rs:281-286 | the sender's record is created with the defaults if missing, and only its last-received time changes |
| Backend.Backend.Sweep | backend/src/main.rs:127-131 | the warned clients are exactly those timed out at now |
| Backend.Backend.CheckStaleAsWritten | backend/src/main.rs:120-134 | with the loop condition as written, nothing is reported while the program runs |
| Backend.Backend.CheckStale | backend/src/main.rs:120-134 | with the intended condition, every timed-out client is reported |
| Backend.StaleClientUnreported | backend/src/main.rs:124 | a client silent for 65 seconds, past its 60-second interval plus timeout, is overdue for a sweep, yet the loop as written reports nothing while the loop as intended reports it |
| Api.DateAt | api/src/main.rs:75 | `%Y-%m-%d` reads only a valid date |
| Api.FirstMatchSome | api/src/main.rs:86-90 | the first matching format is found whenever some format matches |
| Api.FirstMatchIsFirst | api/src/main.rs:86-90 | no earlier format matches |
| Api.ParseDateTime | api/src/main.rs:73-100 | every failure is an error response, never a panic |
| Api.ParseDateTimeOk | api/src/main.rs:73-100 | the input is accepted exactly when one of the six formats reads it |
| Api.ParseDateTimeAt | api/src/main.rs:83-94 | a date-only input is read first; the four naive formats next, in order; the offset format last |
| Api.DateRoundTrip | api/src/main.rs:83-85 | a rendered date parses to midnight UTC of that date |
| Api.DateTimeRoundTrip | api/src/main.rs:86-90 | a rendered date and time parses to that instant |
| Api.MinutesRoundTrip | api/src/main.rs:86-90 | a rendered date and `%H:%M` time parses, by the second format, to that minute with zero seconds |
| Api.TSecondsRoundTrip | api/src/main.rs:86-90 | a rendered date, `T` and time parses, by the fourth format, to that instant |
| Api.FractionRoundTrip | api/src/main.rs:86-90 | a rendered date, `T`, time and a fraction of up to nine digits parses, by the fifth format, to that instant plus the fraction in nanoseconds |
| Api.OffsetRoundTrip | api/src/main.rs:92-94 | a date, time, fraction and offset parse to the instant shifted to UTC |
| Api.TooShortRejected | api/src/main.rs:96-100 | input shorter than a date is rejected |
| Api.OddLengthRejected | api/src/main.rs:96-100 | an input whose length fits no format is rejected |
| Api.DayFirstRejected | api/src/main.rs:391-396 | a day-month-year date is rejected |
| Api.LongInput | api/src/main.rs:86-90 | input longer than 19 characters fits none of the four fixed-width formats |
| Api.DateOnlyExample | api/src/main.rs:383-389 | `2024-12-16` is midnight of that day |
| Api.DateTimeExample | api/src/main.rs:367-373 | `2024-12-16 14:30:45` is that instant |
| Api.OffsetExample | api/src/main.rs:343-349 | 14:30:45 at `+09:00` is 05:30:45 UTC |
| Api.FractionExample | api/src/main.rs:352-357 | `2024-12-16T14:30:45.000002` is 14:30:45 and 2000 nanoseconds UTC |
| Api.TSecondsExample | api/src/main.rs:360-365 | `2024-12-16T14:30:45` is that instant |
| Api.MinutesExample | api/src/main.rs:376-381 | `2024-12-16 14:30` is 14:30:00 of that day |
| Api.RejectedExamples | api/src/main.rs:391-417 | the documented malformed, empty and random inputs are rejected |
| Api.Flatten | api/src/main.rs:117-119 | a measurement is in the flattening exactly when it is in one of the lists |
| Api.InWindow | api/src/main.rs:120 | a measurement is kept exactly when it is listed and lies between start and end, inclusive |
| Api.Bound | api/src/main.rs:112-115 | a missing bound takes its default; a given one is parsed |
| Api.FilterData | api/src/main.rs:106-122 | an error exactly when a given bound fails to parse; otherwise the prefix of all measurements in the window, stored file after file, whose length is the smaller of the window's size and `limit` (`usize::MAX` when absent), so each lies within the bounds |
| Api.NoLimitKeepsAll | api/src/main.rs:117-121 | without a limit, every measurement in the window is returned |
| Api.DefaultStartIsOneDay | api/src/main.rs:113 | without a start, measurements of the first day after the epoch are dropped |
| Api.TriangleGrows | api/src/main.rs:322-324 | the triangle numbers strictly increase |
| Api.IndexSymmetricMatrix | api/src/main.rs:320-334 | an error exactly when an index is out of range; otherwise an index below the number of cells of the triangle |
| Api.IndexSymmetric | api/src/main.rs:328 | swapping the two indices gives the same cell |
| Api.IndexInjective | api/src/main.rs:320-334 | different unordered pairs get different cells |
| Api.SmallMatrixIndexed | api/src/main.rs:322-325 | for matrices of up to 2^32 rows, every cell in range gets an index |
| Api.LoadResult | api/src/main.rs:263-276 | a file loads exactly when its name holds a date and its contents decode, giving that date; every failure is an error |
| Api.LoadErrors | api/src/main.rs:303-313 | no more errors than files |
| Api.LoadAllOverrides | api/src/main.rs:279-290 | after loading, each date holds the contents of the last file loaded for it |
| Api.DataStore.constructor | api/src/main.rs:238 | the store starts empty |
| Api.DataStore.Snapshot | api/src/main.rs:102-105 | a snapshot is the current map of data |
| Api.DataStore.LoadDatafile | api/src/main.rs:263-293 | the file's result is returned; on success its date is replaced, and no other date changes |
| Api.DataStore.LoadData | api/src/main.rs:296-317 | a path that is not a directory is an error that changes nothing; otherwise every file is loaded in order and the failures are returned |
| Api.SnapshotSurvivesLoad | api/src/main.rs:279-290 | a snapshot taken before a load keeps its contents, while the store moves on to the loaded data |
| FrontendParse.RowOf | frontend/src/parse.rs:22-31 | a line with more fields than the header is an error; otherwise its keys are exactly the header names of its field positions |
| FrontendParse.SacctCsvlike | frontend/src/parse.rs:10-36 | empty output is an error; otherwise one row per data line, each bound to the header |
| FrontendParse.EmptyInputRejected | frontend/src/parse.rs:15-17 | output without a header line is rejected |
| FrontendParse.TableRoundTrip | frontend/src/parse.rs:10-36 | a printed table parses back to its rows |
| FrontendParse.FromBytes | frontend/src/parse.rs:66-68 | a size built from bytes reports those bytes |
| FrontendParse.FromScaled | frontend/src/parse.rs:66-88 | a scaled size is the value times its power of 1024; it is an `Overflow` error exactly when that exceeds the 64-bit maximum, which is where a debug build's multiplication panics |
| FrontendParse.ScaleOf | frontend/src/parse.rs:99-104 | a scale exists exactly for the suffixes K, M, G, T and P |
| FrontendParse.ParseTrimmed | frontend/src/parse.rs:95-107 | the Empty error exactly for empty text; a parsed size fits in 64 bits |
| FrontendParse.ParseFileSize | frontend/src/parse.rs:91-108 | the Empty error exactly for blank input; a parsed size fits in 64 bits |
| FrontendParse.ParseIgnoresTrim | frontend/src/parse.rs:93 | surrounding whitespace does not change the result |
| FrontendParse.ParseSuffixed | frontend/src/parse.rs:95-104 | a number with a unit suffix is that many units |
| FrontendParse.ParseUnsuffixed | frontend/src/parse.rs:106 | a bare number is that many bytes |
| FrontendParse.UnsuffixedRejected | frontend/src/parse.rs:106 | text without a suffix that is not a number is rejected |
| FrontendParse.BytesRoundTrip | frontend/src/parse.rs:91-108 | a rendered byte count parses back to itself |
| FrontendParse.ScaledRoundTrip | frontend/src/parse.rs:70-104 | a rendered count with a suffix parses to that count times the scale |
| FrontendParse.BytesExample | frontend/src/parse.rs:125-174 | `10` is ten bytes |
| FrontendParse.KibExample | frontend/src/parse.rs:125-174 | `10K` is 10 * 1024 bytes |
| FrontendParse.MibExample | frontend/src/parse.rs:125-174 | `10M` is 10 * 1024^2 bytes |
| FrontendParse.GibExample | frontend/src/parse.rs:125-174 | `10G` is 10 * 1024^3 bytes |
| FrontendParse.TibExample | frontend/src/parse.rs:125-174 | `10T` is 10 * 1024^4 bytes |
| FrontendParse.PibExample | frontend/src/parse.rs:125-174 | `10P` is 10 * 1024^5 bytes |
| FrontendParse.UnknownSuffixExample | frontend/src/parse.rs:125-174 | `10X` is an invalid integer |
| FrontendParse.NegativeExample | frontend/src/parse.rs:125-174 | `-321` is an invalid integer |
| FrontendParse.FloatExample | frontend/src/parse.rs:125-174 | `42.1337` is an invalid integer |
| FrontendParse.WhitespaceExample | frontend/src/parse.rs:125-174 | blank input is the Empty error |
| Sysinfo.FindProcess | collector_data/src/node.rs:39 | a process is found exactly when its pid is in the table, and the one found has that pid |
| Sysinfo.FindListed | collector_data/src/node.rs:59-60 | when pids are distinct, each listed process is found by its pid |
| Sysinfo.Pids | collector_data/src/node.rs:56 | the pid of each process, in order |
| Node.GetStaticInfo | collector_data/src/node.rs:15-22 | node id 1, and the total memory in whole megabytes, rounded down |
| Node.SumMemoryOfMissing | collector_data/src/node.rs:39 | a pid absent from the table adds no memory |
| Node.SumMemoryOfTable | collector_data/src/node.rs:59-63 | when pids are distinct, summing memory by the pids of listed processes gives those processes' memory |
| Node.GetUsagePerJob | collector_data/src/node.rs:35-50 | one usage tagged with the job's id, holding the memory of its processes in megabytes; pids without a process add nothing |
| Node.JobPids | collector_data/src/node.rs:53-54 | the pids of all jobs' processes |
| Node.PidsWithoutJob | collector_data/src/node.rs:56 | a pid is left over exactly when it is in the table and belongs to no job |
| Node.NonJobPartition | collector_data/src/node.rs:52-63 | the memory of all processes is that of the processes of no job plus that of the processes of some job |
| Node.GetNonJobUsage | collector_data/src/node.rs:52-73 | the memory of the processes that belong to no job |
| Cpu.KeyValue | collector_data/src/cpu.rs:37 | a line splits into two parts exactly when it contains a colon |
| Cpu.ClassifyBlank | collector_data/src/cpu.rs:37-43 | a line counts as blank exactly when it is whitespace only and has no colon |
| Cpu.ReadRecords | collector_data/src/cpu.rs:35-51 | every failure is a panic; otherwise one record is added per blank line read |
| Cpu.GetStaticInfo | collector_data/src/cpu.rs:29-54 | the record list read from the given contents |
| Cpu.ReadLoop | collector_data/src/cpu.rs:35-51 | the loop over lines computes the records the specification reads |
| Cpu.CpuInfoRoundTrip | collector_data/src/cpu.rs:35-51 | rendered processor blocks read back to exactly those processors |
| Cpu.BuilderCarriesOver | collector_data/src/cpu.rs:32-46 | the builder is never reset: a second blank line repeats the previous processor |
| Cpu.BlankBeforeProcessorPanics | collector_data/src/cpu.rs:42-43 | contents starting with a blank line panic |
| Cpu.PidPsrOfLine | collector_data/src/cpu.rs:153-157 | a malformed line panics, never an error |
| Cpu.PidPsrOfRendered | collector_data/src/cpu.rs:153-157 | a rendered pid and processor read back to themselves |
| Cpu.GetPidPsr | collector_data/src/cpu.rs:147-161 | a malformed line panics, never an error |
| Cpu.CpuIdsOf | collector_data/src/cpu.rs:76-96 | the processors used, each once: exactly those that run a listed pid known to both the process table and `ps` |
| Cpu.UsageIdsDistinct | collector_data/src/cpu.rs:83-92 | no processor gets two usages |
| Cpu.CollectUsages | collector_data/src/cpu.rs:76-96 | the loop builds the usage table of the specification |
| Cpu.GetUsagePerJob | collector_data/src/cpu.rs:68-99 | a failed `ps` read fails; otherwise one usage per processor the job's processes run on |
| Cpu.GetNonJobUsage | collector_data/src/cpu.rs:101-142 | a failed `ps` read fails; otherwise one usage per processor that runs a process of no job |
| Gpu.ToMb | collector_data/src/gpu.rs:36 | bytes divided by a million, truncated to 32 bits: fits in 32 bits, and is the exact quotient when that fits |
| Gpu.Enumerated | collector_data/src/gpu.rs:25 | no devices is an error; otherwise all devices but the last |
| Gpu.GetStaticInfo | collector_data/src/gpu.rs:20-41 | the information of every enumerated device, in order |
| Gpu.StaticInfoIntended | collector_data/src/gpu.rs:20-41 | with the intended range, one entry per device, in order |
| Gpu.GetGpuUsagePerPid | collector_data/src/gpu.rs:135-170 | no devices is a failure; otherwise the map from pid to sample over the processes of all devices but the last, the last listing winning |
| Gpu.LastDeviceProcessUnseen | collector_data/src/gpu.rs:143 | a process running only on the last device is never sampled |
| Gpu.EveryDeviceProcessSeen | collector_data/src/gpu.rs:143 | with the intended range, every process is sampled |
| Gpu.CollectUsagesAsWritten | collector_data/src/gpu.rs:62-79 | the loop as written builds the table in which each GPU's first process is counted twice |
| Gpu.SingleProcessCountedTwice | collector_data/src/gpu.rs:62-79 | one process on one GPU is counted twice as written and once by the intended table |
| Gpu.GetUsagePerJob | collector_data/src/gpu.rs:54-87 | no devices is a failure; otherwise the as-written table of the job's processes |
| Gpu.GetNonJobUsage | collector_data/src/gpu.rs:89-133 | no devices is a failure; otherwise the as-written table of the processes of no job |
| GpuTable.GpuIdsOf | collector_data/src/gpu_dep.rs:65-74 | the GPUs used, each once, exactly those that run a listed pid |
| GpuTable.MemOnUnlisted | collector_data/src/gpu_dep.rs:68-74 | a GPU running no listed process has no memory attributed |
| GpuTable.MemConserved | collector_data/src/gpu_dep.rs:65-84 | the memory in the table is the memory of the listed processes, each counted once |
| GpuTable.UsagesOf | collector_data/src/gpu_dep.rs:60-88 | one usage per GPU used, in first-seen order |
| GpuTable.CollectUsages | collector_data/src/gpu_dep.rs:65-85 | the loop builds the table of the specification |
| GpuDep.GpuInfoOfLine | collector_data/src/gpu_dep.rs:30-36 | a malformed line panics, never an error |
| GpuDep.GetStaticInfo | collector_data/src/gpu_dep.rs:20-47 | a malformed line panics, never an error |
| GpuDep.GpuInfoOfRendered | collector_data/src/gpu_dep.rs:30-36 | a rendered GPU line reads back to its fields |
| GpuDep.PidSampleOfLine | collector_data/src/gpu_dep.rs:141-154 | a malformed line panics, never an error |
| GpuDep.GpuUsagePerPid | collector_data/src/gpu_dep.rs:127-158 | a malformed line panics, never an error |
| GpuDep.PidSampleOfRendered | collector_data/src/gpu_dep.rs:141-154 | a rendered sample line reads back to its fields |
| GpuDep.GetUsagePerJob | collector_data/src/gpu_dep.rs:60-88 | a failed `nvidia-smi` read fails; otherwise the table of the job's processes |
| GpuDep.GetNonJobUsage | collector_data/src/gpu_dep.rs:90-125 | a failed `nvidia-smi` read fails; otherwise the table of the processes of no job |
| GpuDep.SreportLine | collector_data/src/gpu_dep.rs:203-212 | a line that reads gives seconds whose milliseconds fit in a signed 64-bit integer |
| GpuDep.QueryGpuTimes | collector_data/src/gpu_dep.rs:176-216 | a failed command is an error |
| GpuDep.SreportLineOfRendered | collector_data/src/gpu_dep.rs:203-210 | a rendered report line reads back to its user and seconds |
| GpuDep.BadReportLineAborts | collector_data/src/gpu_dep.rs:211-214 | one bad line makes the whole query fail |
| GpuDep.QueryKeepsLastLine | collector_data/src/gpu_dep.rs:196-214 | a user's time is that of the last line naming them |
| Job.SlurmTimeOfTimestamp | collector_data/src/job.rs:34-41 | `N/A` becomes the epoch; a timestamp has its `T` replaced by a space |
| Job.ParseSqueueLine | collector_data/src/job.rs:32-50 | a line with fewer than five columns panics, never an error |
| Job.SqueueShortLinePanics | collector_data/src/job.rs:33-41 | a line with fewer than five columns fails |
| Job.SqueueColumnsShifted | collector_data/src/job.rs:34-49 | a user named `Tom` becomes ` om`, and the end time keeps its `T` |
| Job.ParseSqueueLineIntended | collector_data/src/job.rs:32-50 | with the conversion on the start and end columns, a short line still panics |
| Job.SqueueLineIntended | collector_data/src/job.rs:32-50 | the intended reading keeps the user and converts both SLURM timestamps |
| Job.ParseSqueue | collector_data/src/job.rs:32-50 | a failure is a panic |
| Job.PidOfLine | collector_data/src/job.rs:76-79 | a pid fits in 32 bits; a line without a number panics |
| Job.ProcessesOfJob | collector_data/src/job.rs:70-82 | a failure is a panic |
| Job.ParsePidsOfRendered | collector_data/src/job.rs:74-79 | lines starting with rendered pids read back to those pids |
| Job.GetJobs | collector_data/src/job.rs:22-68 | a failure is a panic; it succeeds exactly when every line parses and every job's pid list parses, giving one job per line with its pids |
| Job.AttachProcesses | collector_data/src/job.rs:55-65 | succeeds exactly when every job's pid list parses, giving the jobs in order with their pids; otherwise the first failure |
| Monitoring.GetStaticInfo | collector_data/src/monitoring_info.rs:56-66 | fails exactly when `/proc/cpuinfo` cannot be read or there are no GPUs; otherwise the node and CPU information and the information of all GPUs but the last |
| Monitoring.GetMonitoringInfo | collector_data/src/monitoring_info.rs:78-101 | fails exactly when the jobs, `ps` or the GPU enumeration fail; otherwise the jobs, one per `squeue` line in order with its listed processes, then each job's node, CPU and GPU usage in job order, then the usage of the processes of no job last |
| Monitoring.JobUsages | collector_data/src/monitoring_info.rs:84-88 | fails exactly when there are jobs and `ps` or the GPU enumeration fails |
| Monitoring.GetStartingInfo | collector_data/src/monitoring_info.rs:29-36 | fails exactly when the static information fails; otherwise an initial measurement taken now whose content is the node, CPU and GPU information the static snapshot reads |
| Monitoring.GetMonitoringData | collector_data/src/monitoring_info.rs:38-45 | fails exactly when the monitoring information fails; otherwise a current measurement taken now whose content is the full snapshot: the jobs, their node, CPU and GPU usage, then the usage of the processes of no job; one more node usage than jobs, the last belonging to no job |

## Left out

- Floating point: `as_kib` to `as_pib` (frontend/src/parse.rs:46-64) and the `f32` utilisation shares are not modelled. Usages carry integer memory only.
- I/O and concurrency: tokio tasks, TCP sockets, channels, mutexes, signal handling and sleeping are not modelled. Each worker is one step over explicit state.
- The stale-client timer: `Backend.Backend.Sweep` is one sweep, not the periodic loop.
- Brotli and JSON: encoding and decoding are abstracted to an `Option` that is either the decoded list or nothing.
- `serde_json::to_string` in `get_starting_info` and `get_monitoring_data`: the models return the values, not their JSON text.
- `parse_filename` and the API's HTTP layer: these are not part of this model. A file's date is an input.
- Map iteration order: `HashMap::values` and iteration over maps are modelled as sequences. For the usage tables this is first-seen order.
- Clocks: `Utc::now()` and `Instant::now()` are `now` parameters.
- Api.DataStore.LoadData: the directory listing is an input sequence of files. The errors of `read_dir()?` and of each entry's `file.context(...)?` (api/src/main.rs:299, 303-304), which abort the load, are not modelled; only the not-a-directory error is.
- Api.DateAt: reads only the zero-padded, fixed-width `%Y-%m-%d`. Chrono also accepts one-digit months and days, and leading whitespace before a field; those inputs are rejected here.
- Api.ParseDateTime: models only the fixed-width shapes of the six formats, through Api.DateAt and Api.ClockAt. It does not model chrono's leniencies, such as one-digit fields, whitespace before a field, or chrono's own representation of a leap second.
- Backend.Backend.HandleConnection: the peer address is an opaque string, so the `IpAddr`/`SocketAddr` type mismatch of the source is not modelled.
- NVML and command failures: only the `expect`/`unwrap` panics and `Err` results on the modelled paths are kept.
- Gpu.GetGpuUsagePerPid: the `unwrap` of `utilization_rates` (collector_data/src/gpu.rs:153) is not modelled. Utilisation is floating point.
- Usage sums: GPU memory sums are unbounded integers, so a `u32` overflow in sums is not modelled.
- FrontendParse.FromScaled: models the debug-build multiplication panic (frontend/src/parse.rs:70-88) as an `Overflow` result. Release-build wrap-around is not modelled.
- Api.IndexSymmetricMatrix: models the debug-build multiplication panic in `square_number` (api/src/main.rs:322) as a `Panic` result. Release-build wrap-around is not modelled.
- Backend.Backend.Sweep: requires the client records to hold the default interval and timeout, the only values the backend ever creates.
- Chrono.CivilFromDays: states only the ranges of month and day. Validity against month lengths is `Chrono.CivilFromDaysValid`.
- Api.OffsetRoundTrip: states its input as the concatenation of rendered parts, not as one formatting function.

## Findings

The operations model the code as written, so `Monitoring` sees the same numbers the collector reports. Each corrected definition sits beside the as-written one, with the intended property proved about it. The corrected GPU table, `GpuTable.UsagesOf`, is the one `GpuDep` uses, because collector_data/src/gpu_dep.rs already starts each entry at zero.

| source | as written | input that shows it | evidently intended | confidence | as-written member | corrected member |
|---|---|---|---|---|---|---|
| backend/src/main.rs:124 | the stale-client loop runs only while the abort flag is set | any client silent for more than a minute while the backend runs is never reported; in addition, backend/src/main.rs:48 calls the `async fn start_check_stale_worker` (backend/src/main.rs:120) without `.await`, so its future is never polled and the spawn at backend/src/main.rs:123 never runs | loop while the abort flag is not set, and await the start function so the task is spawned; the model covers the loop only | not executed | Backend.Backend.CheckStaleAsWritten | Backend.Backend.CheckStale |
| collector_data/src/gpu.rs:62-79 | a GPU's entry is created holding its first process's memory, and that process's memory is then added again | one process using 100 MB on one GPU is reported as 200 MB | each entry starts at zero, as in collector_data/src/gpu_dep.rs:68-74, so every process counts once | not executed | Gpu.SingleProcessCountedTwice | GpuTable.MemConserved |
| collector_data/src/gpu.rs:143 | devices are enumerated over `0..count-1`, skipping the last | two devices, with a process only on the second: the process is never sampled | enumerate `0..count` | not executed | Gpu.LastDeviceProcessUnseen | Gpu.EveryDeviceProcessSeen |
| collector_data/src/job.rs:34-49 | the `N/A` and `T` conversion meant for the start and end times is applied to columns 2 and 3, which are the user and the start time; the end time in column 4 is kept verbatim | `1 job Tom 2024-01-01T00:00:00 2024-01-02T00:00:00`: the user becomes ` om` and the end time keeps its `T` | convert columns 3 and 4 and keep the user verbatim | not executed | Job.SqueueColumnsShifted | Job.SqueueLineIntended |
