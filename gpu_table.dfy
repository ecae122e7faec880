/**
  The per-GPU usage both GPU collectors (`collector_data/src/gpu_dep.rs` and
  `collector_data/src/gpu.rs`) build from a table mapping each process id to
  the GPU it runs on and the memory it holds there.
*/
module GpuTable {
  import opened Wrappers

  datatype GpuInfo = GpuInfo(id: string, memTotal: nat)

  /** The usage of one GPU (its `f32` load is not modelled). */
  datatype GpuUsage = GpuUsage(timestamp: string, gpuId: string, gpuMemAlloc: nat, jobId: Option<string>)

  /** The `HashMap<u32, (String, u32, f32)>` of a pid's GPU uuid and memory in MB. */
  type PidTable = map<nat, (string, nat)>

  /** The pid is in the table, on GPU `g`. */
  predicate OnGpu(table: PidTable, pid: nat, g: string) {
    pid in table && table[pid].0 == g
  }

  /**
    The GPUs the listed pids run on, each once, in the order first met;
    pids not in the table are skipped.
  */
  function GpuIdsOf(table: PidTable, pids: seq<nat>): (ids: seq<string>)
    ensures forall i, j :: 0 <= i < j < |ids| ==> ids[i] != ids[j]
    ensures forall g :: g in ids <==> exists i :: 0 <= i < |pids| && OnGpu(table, pids[i], g)
  {
    if pids == [] then []
    else
      var init := pids[..|pids| - 1];
      var ids := GpuIdsOf(table, init);
      var pid := pids[|pids| - 1];
      assert forall i :: 0 <= i < |init| ==> init[i] == pids[i];
      if pid in table && table[pid].0 !in ids then ids + [table[pid].0] else ids
  }

  /** The memory the listed pids hold on GPU `g` (a pid listed twice counts twice). */
  function MemOn(table: PidTable, pids: seq<nat>, g: string): nat {
    if pids == [] then 0
    else
      var pid := pids[|pids| - 1];
      MemOn(table, pids[..|pids| - 1], g) + (if OnGpu(table, pid, g) then table[pid].1 else 0)
  }

  /** The memory the listed pids hold on all GPUs together. */
  function TableMem(table: PidTable, pids: seq<nat>): nat {
    if pids == [] then 0
    else
      var pid := pids[|pids| - 1];
      TableMem(table, pids[..|pids| - 1]) + (if pid in table then table[pid].1 else 0)
  }

  /** The memory attributed to the GPUs `ids`, summed. */
  function SumOn(table: PidTable, pids: seq<nat>, ids: seq<string>): nat {
    if ids == [] then 0 else MemOn(table, pids, ids[0]) + SumOn(table, pids, ids[1..])
  }

  /** No memory is attributed to a GPU none of the pids runs on. */
  lemma {:induction false} MemOnUnlisted(table: PidTable, pids: seq<nat>, g: string)
    requires g !in GpuIdsOf(table, pids)
    ensures MemOn(table, pids, g) == 0
  {
    if pids != [] {
      var init := pids[..|pids| - 1];
      assert forall i :: 0 <= i < |init| ==> init[i] == pids[i];
      MemOnUnlisted(table, init, g);
    }
  }

  lemma {:induction false} SumOnAppend(table: PidTable, pids: seq<nat>, ids: seq<string>, g: string)
    ensures SumOn(table, pids, ids + [g]) == SumOn(table, pids, ids) + MemOn(table, pids, g)
  {
    if ids == [] {
      assert ids + [g] == [g] && [g][1..] == [];
    } else {
      assert (ids + [g])[0] == ids[0] && (ids + [g])[1..] == ids[1..] + [g];
      SumOnAppend(table, pids, ids[1..], g);
    }
  }

  /** One more pid adds its memory to the sum exactly when its GPU is among `ids`. */
  lemma {:induction false} SumOnStep(table: PidTable, pids: seq<nat>, ids: seq<string>)
    requires pids != []
    requires forall i, j :: 0 <= i < j < |ids| ==> ids[i] != ids[j]
    ensures var pid := pids[|pids| - 1];
      SumOn(table, pids, ids) == SumOn(table, pids[..|pids| - 1], ids)
        + (if pid in table && table[pid].0 in ids then table[pid].1 else 0)
  {
    if ids != [] {
      SumOnStep(table, pids, ids[1..]);
      var pid := pids[|pids| - 1];
      if pid in table && table[pid].0 == ids[0] {
        assert table[pid].0 !in ids[1..];
      }
    }
  }

  /**
    Every byte of a listed pid's memory is attributed to exactly one GPU:
    the per-GPU sums add up to the memory of the listed pids in the table.
  */
  lemma {:induction false} MemConserved(table: PidTable, pids: seq<nat>)
    ensures SumOn(table, pids, GpuIdsOf(table, pids)) == TableMem(table, pids)
  {
    if pids != [] {
      var init := pids[..|pids| - 1];
      var pid := pids[|pids| - 1];
      var ids := GpuIdsOf(table, init);
      MemConserved(table, init);
      SumOnStep(table, pids, ids);
      if pid in table && table[pid].0 !in ids {
        var g := table[pid].0;
        SumOnAppend(table, pids, ids, g);
        MemOnUnlisted(table, init, g);
      }
    }
  }

  /** One entry per GPU, carrying the memory of the listed pids on it. */
  function UsagesOf(table: PidTable, pids: seq<nat>, jobId: Option<string>, timestamp: string): (usages: seq<GpuUsage>)
    ensures |usages| == |GpuIdsOf(table, pids)|
    ensures forall i :: 0 <= i < |usages| ==>
      usages[i] == GpuUsage(timestamp, GpuIdsOf(table, pids)[i], MemOn(table, pids, GpuIdsOf(table, pids)[i]), jobId)
  {
    var ids := GpuIdsOf(table, pids);
    seq(|ids|, i requires 0 <= i < |ids| => GpuUsage(timestamp, ids[i], MemOn(table, pids, ids[i]), jobId))
  }

  /**
    The `for pid in ...` loop of `gpu_dep.rs`: a GPU's entry starts at 0 when
    the first pid on it is met, and every pid on it adds its memory.
  */
  method CollectUsages(table: PidTable, pids: seq<nat>, jobId: Option<string>, timestamp: string)
    returns (usages: seq<GpuUsage>)
    ensures usages == UsagesOf(table, pids, jobId, timestamp)
  {
    var alloc: map<string, nat> := map[];
    var order: seq<string> := [];
    var k := 0;
    while k < |pids|
      invariant 0 <= k <= |pids|
      invariant order == GpuIdsOf(table, pids[..k])
      invariant forall g :: g in alloc <==> g in order
      invariant forall g :: g in alloc ==> alloc[g] == MemOn(table, pids[..k], g)
    {
      var pid := pids[k];
      assert pids[..k + 1][..k] == pids[..k];
      if pid in table {
        var g := table[pid].0;
        if g !in alloc {
          MemOnUnlisted(table, pids[..k], g);
          alloc := alloc[g := 0];
          order := order + [g];
        }
        alloc := alloc[g := alloc[g] + table[pid].1];
      }
      k := k + 1;
    }
    assert pids[..k] == pids;
    usages := seq(|order|, i requires 0 <= i < |order| => GpuUsage(timestamp, order[i], alloc[order[i]], jobId));
  }
}
