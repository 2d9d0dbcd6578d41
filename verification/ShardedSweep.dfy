/** All members of the group sweeping the same table, each over the shards it was given. */
module ShardedSweep {
  import opened Wrappers
  import opened Pagination
  import opened Partition
  import opened Sweep

  /** The sweep of one member: the table as each of its fetches found it, and the fetches. */
  datatype Run = Run(tables: seq<Table>, fs: seq<Fetch>)

  /** `_filter_between`, for the member at `index` */
  predicate Mine(count: nat, index: nat, partitions: seq<int>, row: Row)
    requires count > 0
  {
    "shard" in row && InRange(MyRange(Share(count, index, partitions)), row["shard"])
  }

  /** The caller's criterion narrowed to the shards of the member at `index`. */
  function MemberPlan(p: Plan, count: nat, index: nat, partitions: seq<int>): Plan
    requires count > 0
  {
    p.(base := row => p.base(row) && Mine(count, index, partitions, row))
  }

  ghost predicate Ran(p: Plan, run: Run)
    requires WellKeyed(p)
  {
    Swept(p, run.tables, run.fs) && run.fs != [] && run.fs[|run.fs| - 1].page == []
  }

  /** A member without shards has no range and reads nothing; any other finishes its sweep. */
  ghost predicate MemberRan(p: Plan, count: nat, index: nat, partitions: seq<int>, run: Run)
    requires WellKeyed(p) && count > 0
  {
    if Share(count, index, partitions) == [] then run.fs == [] else Ran(MemberPlan(p, count, index, partitions), run)
  }

  /** The same, with markers that keep their sort keys. */
  ghost predicate MemberStill(p: Plan, count: nat, index: nat, partitions: seq<int>, run: Run)
    requires WellKeyed(p) && count > 0
  {
    && MemberRan(p, count, index, partitions, run)
    && (Share(count, index, partitions) != [] ==>
          MarkersStill(MemberPlan(p, count, index, partitions), run.tables, run.fs))
  }

  /** In the table, the row with this id has this shard and these sort keys, and meets the caller's criterion. */
  ghost predicate Settled(p: Plan, t: Table, id: int, keys: seq<int>, shard: int)
    requires WellKeyed(p)
  {
    IsTable(p, t) && exists r | r in t :: IsSettled(p, r, id, keys, shard)
  }

  predicate IsSettled(p: Plan, r: Row, id: int, keys: seq<int>, shard: int)
    requires WellKeyed(p) && r.Keys == p.columns
  {
    r["id"] == id && "shard" in r && r["shard"] == shard && p.base(r) && Key(p, r) == keys
  }

  ghost predicate AlwaysSettled(p: Plan, run: Run, id: int, keys: seq<int>, shard: int)
    requires WellKeyed(p)
  {
    |run.fs| <= |run.tables| && forall k | 0 <= k < |run.fs| :: Settled(p, run.tables[k], id, keys, shard)
  }

  /** Every member has had its sweep. */
  ghost predicate GroupRan(p: Plan, partitions: seq<int>, runs: seq<Run>)
    requires WellKeyed(p)
  {
    runs != [] && forall i | 0 <= i < |runs| :: MemberRan(p, |runs|, i, partitions, runs[i])
  }

  ghost predicate GroupStill(p: Plan, partitions: seq<int>, runs: seq<Run>)
    requires WellKeyed(p)
  {
    runs != [] && forall i | 0 <= i < |runs| :: MemberStill(p, |runs|, i, partitions, runs[i])
  }

  /** Whenever any member looked, the row was there unchanged. */
  ghost predicate SettledForAll(p: Plan, runs: seq<Run>, id: int, keys: seq<int>, shard: int)
    requires WellKeyed(p)
  {
    |keys| == |p.keys| && forall i | 0 <= i < |runs| :: AlwaysSettled(p, runs[i], id, keys, shard)
  }

  function TotalTimes(runs: seq<Run>, id: int): nat {
    if runs == [] then 0 else TotalTimes(runs[..|runs| - 1], id) + Times(Flatten(runs[|runs| - 1].fs), id)
  }

  lemma {:induction false} FlattenNone(fs: seq<Fetch>, id: int)
    requires forall k | 0 <= k < |fs| :: Times(fs[k].page, id) == 0
    ensures Times(Flatten(fs), id) == 0
  {
    if fs != [] {
      FlattenNone(fs[..|fs| - 1], id);
      TimesAppend(Flatten(fs[..|fs| - 1]), fs[|fs| - 1].page, id);
    }
  }

  /** A member never reads a row whose shard it was not given. */
  lemma OthersSkip(p: Plan, count: nat, index: nat, partitions: seq<int>, run: Run, id: int, keys: seq<int>, shard: int)
    requires WellKeyed(p) && count > 0 && MemberRan(p, count, index, partitions, run)
    requires AlwaysSettled(p, run, id, keys, shard) && !InRange(MyRange(Share(count, index, partitions)), shard)
    ensures Times(Flatten(run.fs), id) == 0
  {
    if Share(count, index, partitions) != [] {
      var q := MemberPlan(p, count, index, partitions);
      forall k | 0 <= k < |run.fs|
        ensures Times(run.fs[k].page, id) == 0
      {
        assert Fetched(q, run.tables[k], run.fs[k]) && Settled(p, run.tables[k], id, keys, shard);
        TimesNone(run.fs[k].page, id);
      }
      FlattenNone(run.fs, id);
    }
  }

  /** The member that was given the row's shard reads it once. */
  lemma OwnerReads(p: Plan, count: nat, index: nat, partitions: seq<int>, run: Run, id: int, keys: seq<int>, shard: int)
    requires WellKeyed(p) && p.limit != Some(0) && count > 0
    requires MemberStill(p, count, index, partitions, run)
    requires AlwaysSettled(p, run, id, keys, shard) && InRange(MyRange(Share(count, index, partitions)), shard)
    requires |keys| == |p.keys|
    ensures Times(Flatten(run.fs), id) == 1
  {
    var q := MemberPlan(p, count, index, partitions);
    forall k | 0 <= k < |run.fs|
      ensures IsTable(q, run.tables[k]) && StaysIn(q, run.tables[k], id, keys)
    {
      assert Settled(p, run.tables[k], id, keys, shard);
      var r :| r in run.tables[k] && IsSettled(p, r, id, keys, shard);
      assert q.base(r) && Key(q, r) == keys;
    }
    SweepYieldsOnce(q, run.tables, run.fs, id, keys);
  }

  lemma {:induction false} OwnerCountsAlone(runs: seq<Run>, owner: nat, id: int)
    requires forall i | 0 <= i < |runs| :: Times(Flatten(runs[i].fs), id) == if i == owner then 1 else 0
    ensures TotalTimes(runs, id) == if owner < |runs| then 1 else 0
  {
    if runs != [] {
      OwnerCountsAlone(runs[..|runs| - 1], owner, id);
    }
  }

  /** One sweep by every member yields, once in all, each row that stays put in a listed shard: however many
      members there are, whatever each member's view of the other rows. */
  lemma GroupYieldsOnce(p: Plan, partitions: seq<int>, runs: seq<Run>, id: int, keys: seq<int>, shard: int)
    requires WellKeyed(p) && p.limit != Some(0) && Increasing(partitions) && shard in partitions
    requires GroupStill(p, partitions, runs) && SettledForAll(p, runs, id, keys, shard)
    ensures TotalTimes(runs, id) == 1
  {
    var owner := ShardSweptByOne(|runs|, partitions, shard);
    forall i | 0 <= i < |runs|
      ensures Times(Flatten(runs[i].fs), id) == if i == owner then 1 else 0
    {
      assert MemberStill(p, |runs|, i, partitions, runs[i]);
      assert AlwaysSettled(p, runs[i], id, keys, shard);
      if i == owner {
        OwnerReads(p, |runs|, i, partitions, runs[i], id, keys, shard);
      } else {
        OthersSkip(p, |runs|, i, partitions, runs[i], id, keys, shard);
      }
    }
    OwnerCountsAlone(runs, owner, id);
  }

  lemma PastTheEnd(count: nat, index: nat, partitions: seq<int>, shard: int)
    requires count > 0 && forall x | x in partitions :: x < shard
    ensures !InRange(MyRange(Share(count, index, partitions)), shard)
  {
    var mine := Share(count, index, partitions);
    if mine != [] {
      assert mine[|mine| - 1] in partitions;
    }
  }

  /** A row in a shard past the end of the list is read by nobody. */
  lemma UnlistedYieldsNever(p: Plan, partitions: seq<int>, runs: seq<Run>, id: int, keys: seq<int>, shard: int)
    requires WellKeyed(p) && forall x | x in partitions :: x < shard
    requires GroupRan(p, partitions, runs) && SettledForAll(p, runs, id, keys, shard)
    ensures TotalTimes(runs, id) == 0
  {
    forall i | 0 <= i < |runs|
      ensures Times(Flatten(runs[i].fs), id) == 0
    {
      assert MemberRan(p, |runs|, i, partitions, runs[i]) && AlwaysSettled(p, runs[i], id, keys, shard);
      PastTheEnd(|runs|, i, partitions, shard);
      OthersSkip(p, |runs|, i, partitions, runs[i], id, keys, shard);
    }
    OwnerCountsAlone(runs, |runs|, id);
  }

  /** The producer's list, `range(0, 4095)`; a zone's shard is the first three hexadecimal digits of its id. */
  function ShardList(): seq<int> {
    seq(4095, i => i)
  }

  lemma ShardListHolds(x: int)
    ensures Increasing(ShardList())
    ensures x in ShardList() <==> 0 <= x < 4095
  {
    if 0 <= x < 4095 {
      assert ShardList()[x] == x;
    }
  }

  /** In creation order every member's markers keep still. */
  lemma GroupInCreationOrder(p: Plan, partitions: seq<int>, runs: seq<Run>)
    requires WellKeyed(p) && InCreationOrder(p) && GroupRan(p, partitions, runs)
    requires forall i | 0 <= i < |runs| :: CreationTimesStay(p, runs[i].tables)
    ensures GroupStill(p, partitions, runs)
  {
    forall i | 0 <= i < |runs|
      ensures MemberStill(p, |runs|, i, partitions, runs[i])
    {
      assert MemberRan(p, |runs|, i, partitions, runs[i]);
      if Share(|runs|, i, partitions) != [] {
        var q := MemberPlan(p, |runs|, i, partitions);
        assert CreationTimesStay(p, runs[i].tables);
        assert forall k | 0 <= k < |runs[i].tables| :: IsTable(p, runs[i].tables[k]) && IsTable(q, runs[i].tables[k]);
        CreationOrderIsStill(q, runs[i].tables, runs[i].fs);
      }
    }
  }

  /** Over the producer's own list and in its own order, every shard is covered but the last one. */
  lemma ProducerReadsAllButOneShard(p: Plan, runs: seq<Run>, id: int, keys: seq<int>, shard: int)
    requires WellKeyed(p) && InCreationOrder(p) && p.limit != Some(0) && 0 <= shard < 0x1000
    requires forall i | 0 <= i < |runs| :: CreationTimesStay(p, runs[i].tables)
    requires GroupRan(p, ShardList(), runs) && SettledForAll(p, runs, id, keys, shard)
    ensures TotalTimes(runs, id) == 1 <==> shard != 0xfff
  {
    ShardListHolds(shard);
    if shard == 0xfff {
      UnlistedYieldsNever(p, ShardList(), runs, id, keys, shard);
    } else {
      GroupInCreationOrder(p, ShardList(), runs);
      GroupYieldsOnce(p, ShardList(), runs, id, keys, shard);
    }
  }

  /** `_iter_zones`, on a member that knows its share */
  method IterZones(p: Plan, sortDir: string, count: nat, index: nat, partitions: seq<int>, tables: seq<Table>)
    returns (r: Result<(seq<Row>, Ending), Partition.Error>, ghost run: Run)
    requires WellKeyed(p) && OneWay(p, sortDir) && count > 0
    requires forall k | 0 <= k < |tables| :: IsTable(p, tables[k])
    ensures r.Err? <==> Share(count, index, partitions) == []
    ensures r.Err? ==> r.error == EmptyRange && MemberRan(p, count, index, partitions, run)
    ensures r.Ok? ==> r.value.0 == Flatten(run.fs) && Swept(MemberPlan(p, count, index, partitions), tables, run.fs)
    ensures r.Ok? && r.value.1 == Finished ==> MemberRan(p, count, index, partitions, run)
    ensures r.Ok? ==> (r.value.1 == Finished <==> run.fs != [] && run.fs[|run.fs| - 1].page == [])
  {
    var range := MyRange(Share(count, index, partitions));
    if range.Err? {
      return Err(range.error), Run(tables, []);
    }
    var yielded, ending;
    ghost var fs;
    yielded, ending, fs := Iter(MemberPlan(p, count, index, partitions), sortDir, tables);
    r, run := Ok((yielded, ending)), Run(tables, fs);
  }
}
