/**
  The backend's save worker and connection handling (`backend/src/main.rs`).

  The data directory is a map from file name to entry; a name that is not a
  key is a file that does not exist. A regular file's contents are either
  the list of measurements it decodes to (Brotli, then JSON) or `None` when
  decoding fails. The worker takes one measurement per iteration from an
  unbounded queue, appends it to the list stored for its UTC day and
  rewrites that day's file.
*/
module Backend {
  import opened Wrappers
  import opened Failures
  import Text
  import Chrono
  import Monitoring
  import Clients

  type Measurement = Monitoring.Measurement

  /** A directory entry that exists. */
  datatype Entry = NonRegular | Regular(contents: Option<seq<Measurement>>)

  type Files = map<string, Entry>

  /** The peer address a connection comes from. */
  type Address = string

  const SAVE_FILE_EXT: string := "json.br"

  /** `format!("{date}.{SAVE_FILE_EXT}")`: the day's canonical save file. */
  function Canonical(date: string): string {
    date + "." + SAVE_FILE_EXT
  }

  /** `packet.time.format("%Y-%m-%d")` of a UTC instant. */
  function DateOf(time: int): string {
    Chrono.FormatDate(Chrono.UtcDate(time))
  }

  /** The index of the last `.` among the first `n` characters. */
  function LastDotBefore(s: string, n: nat): (r: Option<nat>)
    requires n <= |s|
    ensures r.Some? ==> r.value < n && s[r.value] == '.'
    ensures r.Some? ==> forall i :: r.value < i < n ==> s[i] != '.'
    ensures r.None? ==> forall i :: 0 <= i < n ==> s[i] != '.'
  {
    if n == 0 then None else if s[n - 1] == '.' then Some(n - 1) else LastDotBefore(s, n - 1)
  }

  /** `Path::file_stem` of a plain file name: everything before its last `.`. */
  function FileStem(name: string): string {
    match LastDotBefore(name, |name|)
    case Some(i) => if i == 0 then name else name[..i]
    case None => name
  }

  /**
    The `k`-th file the worker probes for a day's list: the canonical file,
    then `format!("{}.{k}.{SAVE_FILE_EXT}", file_stem)`.
  */
  function Probe(date: string, k: nat): string {
    if k == 0 then Canonical(date)
    else FileStem(Canonical(date)) + "." + Text.NatToString(k) + "." + SAVE_FILE_EXT
  }

  /** `file_stem` strips only `.br`, so siblings are `<date>.json.<k>.json.br`. */
  lemma SiblingName(date: string, k: nat)
    requires k >= 1
    ensures Probe(date, k) == date + ".json." + Text.NatToString(k) + ".json.br"
  {
    var name := Canonical(date);
    assert name == date + ".json.br";
    assert name[|name| - 1] == 'r' && name[|name| - 2] == 'b' && name[|name| - 3] == '.';
    assert LastDotBefore(name, |name|) == Some(|name| - 3);
    assert FileStem(name) == date + ".json";
  }

  /** Distinct counters name distinct files. */
  lemma ProbeInjective(date: string, j: nat, k: nat)
    requires Probe(date, j) == Probe(date, k)
    ensures j == k
  {
    var prefix := date + ".json.";
    var suffix := ".json.br";
    if j >= 1 {
      SiblingName(date, j);
    }
    if k >= 1 {
      SiblingName(date, k);
    }
    if j >= 1 && k >= 1 {
      var s := Probe(date, j);
      assert s[|prefix|..|s| - |suffix|] == Text.NatToString(j);
      assert s[|prefix|..|s| - |suffix|] == Text.NatToString(k);
      Text.NatToStringInjective(j, k);
    }
  }

  /** The names of the first `n` probes. */
  function ProbeNames(date: string, n: nat): set<string> {
    set j | 0 <= j < n :: Probe(date, j)
  }

  lemma {:induction false} ProbeNamesSize(date: string, n: nat)
    ensures |ProbeNames(date, n)| == n
  {
    if n > 0 {
      ProbeNamesSize(date, n - 1);
      assert ProbeNames(date, n) == ProbeNames(date, n - 1) + {Probe(date, n - 1)};
      if Probe(date, n - 1) in ProbeNames(date, n - 1) {
        var j :| 0 <= j < n - 1 && Probe(date, j) == Probe(date, n - 1);
        ProbeInjective(date, j, n - 1);
      }
    }
  }

  lemma {:induction false} SubsetSize<T>(a: set<T>, b: set<T>)
    requires a <= b
    ensures |a| <= |b|
  {
    if a != {} {
      var x :| x in a;
      SubsetSize(a - {x}, b - {x});
    }
  }

  /** Only finitely many probes can exist: the probe counter is bounded. */
  lemma ProbesBound(files: Files, date: string, n: nat)
    requires forall j :: 0 <= j < n ==> Probe(date, j) in files
    ensures n <= |files|
  {
    ProbeNamesSize(date, n);
    SubsetSize(ProbeNames(date, n), files.Keys);
  }

  /**
    The list recovered from probe `k` on: a probe that does not exist gives
    a fresh, empty list; one that is not a regular file or does not decode
    is skipped.
  */
  function Recover(files: Files, date: string, k: nat): seq<Measurement>
    requires forall j :: 0 <= j < k ==> Probe(date, j) in files
    decreases |files| - k
  {
    var name := Probe(date, k);
    if name !in files then []
    else match files[name]
      case Regular(Some(list)) => list
      case _ =>
        ProbesBound(files, date, k + 1);
        Recover(files, date, k + 1)
  }

  /** A probe entry that yields a list. */
  predicate Decodes(e: Entry) {
    e.Regular? && e.contents.Some?
  }

  /** Probes `k` to `m - 1` all exist and none of them decodes. */
  predicate SkippedBetween(files: Files, date: string, k: nat, m: nat) {
    forall j :: k <= j < m ==> Probe(date, j) in files && !Decodes(files[Probe(date, j)])
  }

  /** Probe `m` ends the search with `list`: missing and empty, or decoding to it. */
  predicate EndsSearch(files: Files, date: string, m: nat, list: seq<Measurement>) {
    (Probe(date, m) !in files && list == [])
    || (Probe(date, m) in files && files[Probe(date, m)] == Regular(Some(list)))
  }

  /**
    The recovered list comes from the first probe at or after `k` that
    decodes, every probe before it existing and not decoding; or it is empty
    because a probe is missing before any decodes.
  */
  lemma {:induction false} RecoverIsFirstDecodable(files: Files, date: string, k: nat)
    requires forall j :: 0 <= j < k ==> Probe(date, j) in files
    ensures exists m :: m >= k && SkippedBetween(files, date, k, m) && EndsSearch(files, date, m, Recover(files, date, k))
    decreases |files| - k
  {
    var name := Probe(date, k);
    if name in files && !Decodes(files[name]) {
      ProbesBound(files, date, k + 1);
      RecoverIsFirstDecodable(files, date, k + 1);
      var m :| m >= k + 1 && SkippedBetween(files, date, k + 1, m) && EndsSearch(files, date, m, Recover(files, date, k + 1));
      assert Recover(files, date, k) == Recover(files, date, k + 1);
      assert SkippedBetween(files, date, k, m);
    } else {
      assert SkippedBetween(files, date, k, k);
      assert EndsSearch(files, date, k, Recover(files, date, k));
    }
  }

  /** No save file for the day: the list starts out empty. */
  lemma MissingCanonicalRecoversNothing(files: Files, date: string)
    requires Canonical(date) !in files
    ensures Recover(files, date, 0) == []
  {
  }

  /**
    The worker's stream of probes, counter by counter, until one exists
    and decodes or one is missing.
  */
  method RecoverLoop(files: Files, date: string) returns (list: seq<Measurement>)
    ensures list == Recover(files, date, 0)
  {
    var counter: nat := 0;
    while Probe(date, counter) in files && !Decodes(files[Probe(date, counter)])
      invariant forall j :: 0 <= j < counter ==> Probe(date, j) in files
      invariant Recover(files, date, counter) == Recover(files, date, 0)
      decreases |files| - counter
    {
      ProbesBound(files, date, counter + 1);
      counter := counter + 1;
    }
    if Probe(date, counter) in files {
      list := files[Probe(date, counter)].contents.value;
    } else {
      list := [];
    }
  }

  /**
    The directory after saving `packet`: its day's canonical file holds the
    recovered list followed by the packet. A canonical name taken by a
    non-regular entry cannot be created, and nothing changes.
  */
  function Save(files: Files, packet: Measurement): Files {
    SaveOn(files, DateOf(packet.time), packet)
  }

  /** `Save` once the packet's day is known. */
  function SaveOn(files: Files, date: string, packet: Measurement): Files {
    var name := Canonical(date);
    if name in files && files[name].NonRegular? then files
    else files[name := Regular(Some(Recover(files, date, 0) + [packet]))]
  }

  /**
    The directory after saving each of a day's packets in turn (when every
    packet's `DateOf` is `date`, each step is `Save`).
  */
  function SaveDay(files: Files, date: string, packets: seq<Measurement>): Files {
    if packets == [] then files
    else SaveOn(SaveDay(files, date, packets[..|packets| - 1]), date, packets[|packets| - 1])
  }

  /** A canonical file that decodes is the list recovered, with no probing. */
  lemma RecoverDecoded(files: Files, date: string, list: seq<Measurement>)
    requires Canonical(date) in files && files[Canonical(date)] == Regular(Some(list))
    ensures Recover(files, date, 0) == list
  {
  }

  /** Saving a packet of the day appends it to the day's recovered list. */
  lemma SaveAppends(files: Files, date: string, packet: Measurement)
    requires Canonical(date) in files ==> files[Canonical(date)].Regular?
    ensures Canonical(date) in SaveOn(files, date, packet)
    ensures SaveOn(files, date, packet)[Canonical(date)] == Regular(Some(Recover(files, date, 0) + [packet]))
  {
  }

  /**
    Saving packets of one day, one after the other, leaves that day's file
    holding the list first recovered followed by every packet in order.
  */
  lemma {:induction false} SavesAccumulate(files: Files, date: string, packets: seq<Measurement>)
    requires |packets| >= 1
    requires Canonical(date) in files ==> files[Canonical(date)].Regular?
    ensures Canonical(date) in SaveDay(files, date, packets)
    ensures SaveDay(files, date, packets)[Canonical(date)] == Regular(Some(Recover(files, date, 0) + packets))
  {
    var last := packets[|packets| - 1];
    var init := packets[..|packets| - 1];
    assert packets == init + [last];
    assert SaveDay(files, date, packets) == SaveOn(SaveDay(files, date, init), date, last);
    if init == [] {
      assert SaveDay(files, date, init) == files;
      SaveAppends(files, date, last);
    } else {
      SavesAccumulate(files, date, init);
      var before := SaveDay(files, date, init);
      RecoverDecoded(before, date, Recover(files, date, 0) + init);
      SaveAppends(before, date, last);
      assert Recover(files, date, 0) + init + [last] == Recover(files, date, 0) + packets;
    }
  }

  /** Saving touches the packet's own day file and no other. */
  lemma SaveTouchesOneFile(files: Files, packet: Measurement, name: string)
    requires name != Canonical(DateOf(packet.time))
    ensures name in Save(files, packet) <==> name in files
    ensures name in files ==> Save(files, packet)[name] == files[name]
  {
  }

  /** How one iteration of the worker loop ends. */
  datatype Outcome = Continue | Finished(result: Result<(), Failure>)

  class SaveWorker {
    /** The data directory. */
    var files: Files
    /** Measurements sent to the worker and not yet received. */
    var queue: seq<Measurement>
    /** Every sender has been dropped. */
    var disconnected: bool
    /** The shutdown flag the signal handlers set. */
    var abort: bool
    /** The worker task has returned, dropping the receiver. */
    var stopped: bool

    constructor(dataDir: Files)
      ensures files == dataDir && queue == []
      ensures !disconnected && !abort && !stopped
    {
      files := dataDir;
      queue := [];
      disconnected := false;
      abort := false;
      stopped := false;
    }

    /**
      One turn of `while !abort_handler.abort() { .. }`. A set flag ends the
      worker with `Ok` and leaves queued packets unsaved. `try_recv` on an
      empty queue waits and continues, or ends the worker with an error once
      every sender is gone. Otherwise the front packet is saved.
    */
    method Step() returns (outcome: Outcome)
      requires !stopped
      modifies this
      ensures disconnected == old(disconnected) && abort == old(abort)
      ensures old(abort) ==> outcome == Finished(Ok(())) && files == old(files) && queue == old(queue)
      ensures !old(abort) && old(queue) == [] ==> files == old(files) && queue == []
      ensures !old(abort) && old(queue) == [] ==>
                (if old(disconnected) then outcome.Finished? && outcome.result.Err? else outcome == Continue)
      ensures !old(abort) && old(queue) != [] ==>
                queue == old(queue)[1..] && files == Save(old(files), old(queue)[0])
      ensures !old(abort) && old(queue) != [] ==>
                var name := Canonical(DateOf(old(queue)[0].time));
                if name in old(files) && old(files)[name].NonRegular?
                then outcome.Finished? && outcome.result.Err?
                else outcome == Continue
      ensures stopped <==> outcome.Finished?
    {
      if abort {
        stopped := true;
        return Finished(Ok(()));
      }
      if queue == [] {
        if disconnected {
          stopped := true;
          return Finished(Err(Error("save_channel: receiving on a closed channel")));
        }
        return Continue;
      }
      var packet := queue[0];
      queue := queue[1..];
      var date := DateOf(packet.time);
      var name := Canonical(date);
      var all := RecoverLoop(files, date);
      if name in files && files[name].NonRegular? {
        stopped := true;
        return Finished(Err(Error("opening DataObject JSON (2nd time, for writing)")));
      }
      files := files[name := Regular(Some(all + [packet]))];
      return Continue;
    }
  }

  /**
    The connection side of the backend: the worker it feeds and the metadata
    of every client heard from.
  */
  class Backend {
    var worker: SaveWorker
    var clients: map<Address, Clients.ClientMetadata>

    /**
      Every client was created with the default durations, which nothing
      changes, and each address owns its own metadata.
    */
    predicate Valid()
      reads this, clients.Values
    {
      (forall a :: a in clients ==>
         clients[a].interval == Clients.DEFAULT_INTERVAL && clients[a].timeout == Clients.DEFAULT_TIMEOUT)
      && (forall a, b :: a in clients && b in clients && a != b ==> clients[a] != clients[b])
    }

    constructor(w: SaveWorker)
      ensures worker == w && clients == map[]
      ensures Valid()
    {
      worker := w;
      clients := map[];
    }

    /**
      `handle_connection` after the payload has been read: `decoded` is the
      result of deserialising it. A payload that does not decode changes
      nothing; otherwise the packet is queued for the worker (an error once
      the worker has stopped) and then the client's `last_recv` is set,
      creating its entry with the defaults if needed.
    */
    method HandleConnection(addr: Address, decoded: Option<Measurement>, now: int) returns (r: Result<(), Failure>)
      requires Valid()
      modifies this, worker, clients.Values
      ensures Valid()
      ensures worker == old(worker)
      ensures worker.files == old(worker.files) && worker.abort == old(worker.abort)
      ensures worker.stopped == old(worker.stopped) && worker.disconnected == old(worker.disconnected)
      ensures r.Ok? <==> decoded.Some? && !old(worker.stopped)
      ensures r.Err? ==> clients == old(clients) && worker.queue == old(worker.queue)
      ensures r.Err? ==> forall a :: a in clients ==> clients[a].lastRecv == old(clients[a].lastRecv)
      ensures r.Ok? ==> worker.queue == old(worker.queue) + [decoded.value]
      ensures r.Ok? ==> clients.Keys == old(clients.Keys) + {addr}
      ensures r.Ok? ==> clients[addr].lastRecv == now
      ensures r.Ok? && addr in old(clients) ==> clients[addr] == old(clients[addr])
      ensures r.Ok? && addr !in old(clients) ==> fresh(clients[addr])
      ensures forall a :: a in old(clients) && a != addr ==>
                clients[a] == old(clients[a]) && clients[a].lastRecv == old(clients[a].lastRecv)
    {
      if decoded.None? {
        return Err(Error("payload is not a Measurement"));
      }
      if worker.stopped {
        return Err(Error("trying to save packet: channel closed"));
      }
      worker.queue := worker.queue + [decoded.value];
      UpdateLastRecv(addr, now);
      return Ok(());
    }

    /** `update_last_recv`: `entry(addr).or_default().update_last_recv()`. */
    method UpdateLastRecv(addr: Address, now: int)
      requires Valid()
      modifies this, clients.Values
      ensures Valid()
      ensures worker == old(worker)
      ensures clients.Keys == old(clients.Keys) + {addr}
      ensures clients[addr].lastRecv == now
      ensures addr in old(clients) ==> clients[addr] == old(clients[addr])
      ensures addr !in old(clients) ==> fresh(clients[addr])
      ensures forall a :: a in old(clients) && a != addr ==>
                clients[a] == old(clients[a]) && clients[a].lastRecv == old(clients[a].lastRecv)
    {
      var client: Clients.ClientMetadata;
      if addr in clients {
        client := clients[addr];
      } else {
        client := new Clients.ClientMetadata(now);
        clients := clients[addr := client];
      }
      client.UpdateLastRecv(now);
    }

    /** The clients overdue at `now`. */
    function Overdue(now: int): set<Address>
      reads this, clients.Values
    {
      set a | a in clients && Clients.TimedOut(clients[a].lastRecv, clients[a].interval, clients[a].timeout, now)
    }

    /** One pass over the client map, warning about every overdue client. */
    method Sweep(now: int) returns (warned: set<Address>)
      requires Valid()
      ensures warned == Overdue(now)
    {
      warned := {};
      var remaining := clients.Keys;
      while remaining != {}
        invariant remaining <= clients.Keys
        invariant forall a :: a in warned <==> (a in clients.Keys - remaining && a in Overdue(now))
        decreases remaining
      {
        var a :| a in remaining;
        var timedOut := clients[a].HasTimedOut(now);
        if timedOut == Ok(true) {
          warned := warned + {a};
        }
        remaining := remaining - {a};
      }
    }

    /**
      `start_check_stale_worker` as written: the loop runs while the abort
      flag IS set, so a running backend never sweeps. `ticks` are the clock
      readings at successive timer ticks.
    */
    method CheckStaleAsWritten(ticks: seq<int>) returns (warnings: seq<set<Address>>)
      requires Valid()
      ensures worker.abort ==> |warnings| == |ticks|
      ensures worker.abort ==> forall i :: 0 <= i < |ticks| ==> warnings[i] == Overdue(ticks[i])
      ensures !worker.abort ==> warnings == []
    {
      warnings := [];
      var i := 0;
      while worker.abort && i < |ticks|
        invariant 0 <= i <= |ticks| && |warnings| == i
        invariant !worker.abort ==> i == 0
        invariant forall k :: 0 <= k < i ==> warnings[k] == Overdue(ticks[k])
      {
        var w := Sweep(ticks[i]);
        warnings := warnings + [w];
        i := i + 1;
      }
    }

    /** The stale checker as intended: it sweeps at every tick until shutdown. */
    method CheckStale(ticks: seq<int>) returns (warnings: seq<set<Address>>)
      requires Valid()
      ensures !worker.abort ==> |warnings| == |ticks|
      ensures !worker.abort ==> forall i :: 0 <= i < |ticks| ==> warnings[i] == Overdue(ticks[i])
      ensures worker.abort ==> warnings == []
    {
      warnings := [];
      var i := 0;
      while !worker.abort && i < |ticks|
        invariant 0 <= i <= |ticks| && |warnings| == i
        invariant worker.abort ==> i == 0
        invariant forall k :: 0 <= k < i ==> warnings[k] == Overdue(ticks[k])
      {
        var w := Sweep(ticks[i]);
        warnings := warnings + [w];
        i := i + 1;
      }
    }
  }

  /**
    A client silent for 65 seconds in a running backend: the sweep finds it
    overdue, the checker as written reports nothing, the intended one
    reports it.
  */
  method StaleClientUnreported(now: int) returns (overdue: set<Address>, asWritten: seq<set<Address>>, intended: seq<set<Address>>)
    ensures overdue == {"10.0.0.1:4000"}
    ensures asWritten == []
    ensures intended == [{"10.0.0.1:4000"}]
  {
    var worker := new SaveWorker(map[]);
    var backend := new Backend(worker);
    backend.UpdateLastRecv("10.0.0.1:4000", now - 65 * Chrono.NANOS_PER_SEC);
    overdue := backend.Sweep(now);
    asWritten := backend.CheckStaleAsWritten([now]);
    intended := backend.CheckStale([now]);
  }
}
